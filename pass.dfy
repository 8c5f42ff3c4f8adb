/** One overwrite pass (`pass_random` / `pass_zeros`, which differ only in
    how they fill the buffers): fill the main buffer, write it over the
    device chunk by chunk up to the full limit, write the sub-sector tail
    through a second, buffered handle when the main one uses `O_DIRECT`,
    then flush the main handle. */
module Pass {
  import opened Common
  import opened Disk
  import opened Dev
  import opened Entropy
  import opened Progress
  import opened Buffering

  /** How a pass fills its buffers: from the random source or with zeros. */
  datatype Fill = RandomFill | ZeroFill

  // ---------------------------------------------------------------------
  // Arithmetic of a pass

  /** Adding or subtracting multiples of `s` gives a multiple of `s`. */
  lemma MultiplesClosed(a: int, b: int, s: int)
    requires s > 0 && a % s == 0 && b % s == 0
    ensures (a + b) % s == 0 && (a - b) % s == 0
  {
    DivModUnique(a + b, s, a / s + b / s, 0);
    DivModUnique(a - b, s, a / s - b / s, 0);
  }

  /** Inside a block that starts at a multiple of `c`, the offset from the
      block start is the remainder. */
  lemma ModWithinBlock(w: int, j: int, c: int)
    requires c > 0 && w % c == 0 && 0 <= j < c
    ensures (w + j) % c == j
  {
    DivModUnique(w + j, c, w / c, j);
  }

  /** The bytes `write_full_pass` covers: the whole device in buffered
      mode; in direct mode the device size rounded down to the sector, so
      that what is left over is less than one sector. */
  function FullLimit(deviceSize: u64, useDirect: bool, sector: nat): (r: u64)
    requires useDirect ==> sector > 0
    ensures r <= deviceSize
    ensures !useDirect ==> r == deviceSize
    ensures useDirect ==> r % sector == 0 && deviceSize - r < sector
  {
    if useDirect then
      DivModUnique(deviceSize - deviceSize % sector, sector, deviceSize / sector, 0);
      deviceSize - deviceSize % sector
    else deviceSize
  }

  /** The chunk sizes of `write_full_pass` over `remaining` bytes with a
      buffer of `capacity`: each is `min(remaining, capacity)`. */
  function ChunkLens(remaining: nat, capacity: nat): seq<nat>
    requires capacity > 0
    decreases remaining
  {
    if remaining == 0 then []
    else [Min(remaining, capacity)] + ChunkLens(remaining - Min(remaining, capacity), capacity)
  }

  /** The writes `write_full_pass` issues from `offset` on handle `h`. */
  function ChunkWrites(h: nat, offset: nat, remaining: nat, capacity: nat): seq<Event>
    requires capacity > 0
    decreases remaining
  {
    if remaining == 0 then []
    else [Wrote(h, offset, Min(remaining, capacity))]
         + ChunkWrites(h, offset + Min(remaining, capacity), remaining - Min(remaining, capacity), capacity)
  }

  function Sum(s: seq<nat>): nat {
    if s == [] then 0 else s[0] + Sum(s[1..])
  }

  /** The chunks add up to the bytes to write; every chunk is non-empty
      and at most one buffer long, and all but the last are a full buffer. */
  lemma {:induction false} ChunkLensShape(remaining: nat, capacity: nat)
    requires capacity > 0
    ensures var c := ChunkLens(remaining, capacity);
      Sum(c) == remaining
      && (forall k :: 0 <= k < |c| ==> 0 < c[k] <= capacity)
      && (forall k :: 0 <= k < |c| - 1 ==> c[k] == capacity)
  {
    if remaining > 0 {
      var m := Min(remaining, capacity);
      ChunkLensShape(remaining - m, capacity);
      var c := ChunkLens(remaining, capacity);
      assert c[1..] == ChunkLens(remaining - m, capacity);
      if remaining > capacity {
        assert |ChunkLens(remaining - m, capacity)| > 0;
      }
    }
  }

  /** With a buffer and a byte count that are both multiples of the sector,
      every chunk is too: this is what `O_DIRECT` demands. */
  lemma {:induction false} ChunkLensAligned(remaining: nat, capacity: nat, sector: nat)
    requires capacity > 0 && sector > 0 && remaining % sector == 0 && capacity % sector == 0
    ensures forall k :: 0 <= k < |ChunkLens(remaining, capacity)| ==> ChunkLens(remaining, capacity)[k] % sector == 0
  {
    if remaining > 0 {
      var m := Min(remaining, capacity);
      MultiplesClosed(remaining, m, sector);
      ChunkLensAligned(remaining - m, capacity, sector);
      assert ChunkLens(remaining, capacity)[1..] == ChunkLens(remaining - m, capacity);
    }
  }

  // ---------------------------------------------------------------------
  // What a sequence of writes covers

  /** The writes among `events` cover `[start, end)` in order, each one
      starting exactly where the previous ended, with no empty write. */
  predicate Covers(events: seq<Event>, start: nat, end: nat)
    decreases |events|
  {
    if events == [] then start == end
    else match events[0]
      case Wrote(_, off, len) => off == start && len > 0 && Covers(events[1..], start + len, end)
      case _ => Covers(events[1..], start, end)
  }

  lemma {:induction false} CoversAppend(a: seq<Event>, b: seq<Event>, start: nat, mid: nat, end: nat)
    requires Covers(a, start, mid) && Covers(b, mid, end)
    ensures Covers(a + b, start, end)
    decreases |a|
  {
    if a == [] {
      assert a + b == b;
    } else {
      assert (a + b)[0] == a[0];
      assert (a + b)[1..] == a[1..] + b;
      match a[0]
      case Wrote(_, off, len) => CoversAppend(a[1..], b, start + len, mid, end);
      case _ => CoversAppend(a[1..], b, start, mid, end);
    }
  }

  /** The chunk writes cover their range exactly once, in ascending order. */
  lemma {:induction false} ChunkWritesCover(h: nat, offset: nat, remaining: nat, capacity: nat)
    requires capacity > 0
    ensures Covers(ChunkWrites(h, offset, remaining, capacity), offset, offset + remaining)
    decreases remaining
  {
    if remaining > 0 {
      var m := Min(remaining, capacity);
      ChunkWritesCover(h, offset + m, remaining - m, capacity);
      assert ChunkWrites(h, offset, remaining, capacity)[1..] == ChunkWrites(h, offset + m, remaining - m, capacity);
    }
  }

  /** Every chunk write goes to handle `h` with the size `ChunkLens` gives. */
  lemma {:induction false} ChunkWritesLens(h: nat, offset: nat, remaining: nat, capacity: nat)
    requires capacity > 0
    ensures var w := ChunkWrites(h, offset, remaining, capacity); var c := ChunkLens(remaining, capacity);
      |w| == |c| && forall k :: 0 <= k < |w| ==> w[k].Wrote? && w[k].handle == h && w[k].len == c[k]
    decreases remaining
  {
    if remaining > 0 {
      var m := Min(remaining, capacity);
      ChunkWritesLens(h, offset + m, remaining - m, capacity);
      var w := ChunkWrites(h, offset, remaining, capacity);
      var c := ChunkLens(remaining, capacity);
      assert w[1..] == ChunkWrites(h, offset + m, remaining - m, capacity);
      assert c[1..] == ChunkLens(remaining - m, capacity);
    }
  }

  /** Started at a sector boundary, with sector-multiple sizes, every chunk
      write starts at a sector boundary too. */
  lemma {:induction false} ChunkWritesAligned(h: nat, offset: nat, remaining: nat, capacity: nat, sector: nat)
    requires capacity > 0 && sector > 0
    requires offset % sector == 0 && remaining % sector == 0 && capacity % sector == 0
    ensures var w := ChunkWrites(h, offset, remaining, capacity);
      forall k :: 0 <= k < |w| ==> w[k].Wrote? && w[k].offset % sector == 0 && w[k].len % sector == 0
    decreases remaining
  {
    if remaining > 0 {
      var m := Min(remaining, capacity);
      MultiplesClosed(remaining, m, sector);
      MultiplesClosed(offset, m, sector);
      ChunkWritesAligned(h, offset + m, remaining - m, capacity, sector);
      assert ChunkWrites(h, offset, remaining, capacity)[1..] == ChunkWrites(h, offset + m, remaining - m, capacity);
    }
  }

  // ---------------------------------------------------------------------
  // The trace of one pass

  /** Which handle writes the tail: the long-lived auxiliary handle, or
      one opened for the occasion (`open_device_writable` in Fast mode),
      which receives the given id. */
  datatype TailVia = ViaAux(id: nat) | ViaFresh(id: nat)

  /** Events of the tail write at `at`: (open and rewind,) seek, write,
      flush. */
  function TailEvents(via: TailVia, at: nat, len: nat, durable: bool, p: Platform): seq<Event> {
    match via
    case ViaAux(t) => [Seeked(t, at), Wrote(t, at, len), Synced(t, durable)]
    case ViaFresh(t) => [Opened(t, FlagsFor(Fast, p)), Seeked(t, 0), Seeked(t, at), Wrote(t, at, len), Synced(t, durable)]
  }

  /** The tail events write `[at, at + len)` once. */
  lemma TailCovers(via: TailVia, at: nat, len: nat, durable: bool, p: Platform)
    requires len > 0
    ensures Covers(TailEvents(via, at, len, durable, p), at, at + len)
  {
    var ev := TailEvents(via, at, len, durable, p);
    var e := at + len;
    match via {
      case ViaAux(t) =>
        assert ev[1..][1..][1..] == [];
        assert Covers(ev[1..][1..], e, e);
        assert Covers(ev[1..], at, e);
      case ViaFresh(t) =>
        assert ev[1..][1..][1..][1..][1..] == [];
        assert Covers(ev[1..][1..][1..][1..], e, e);
        assert Covers(ev[1..][1..][1..], at, e);
        assert Covers(ev[1..][1..], at, e);
        assert Covers(ev[1..], at, e);
    }
  }

  /** Everything one successful pass does to the device, in order: the
      chunked writes on the main handle, the tail (direct mode, when a
      partial sector is left), and the main handle's flush. */
  function PassTrace(mainId: nat, deviceSize: u64, capacity: nat, useDirect: bool, sector: nat,
                     durable: bool, via: TailVia, p: Platform): seq<Event>
    requires capacity > 0 && (useDirect ==> sector > 0)
  {
    var fl := FullLimit(deviceSize, useDirect, sector);
    ChunkWrites(mainId, 0, fl, capacity)
    + (if useDirect && deviceSize - fl > 0 then TailEvents(via, fl, deviceSize - fl, durable, p) else [])
    + [Synced(mainId, durable)]
  }

  /** A pass writes every byte of the device exactly once, from offset 0
      upwards, and ends by flushing the main handle. */
  lemma PassCoversDevice(mainId: nat, deviceSize: u64, capacity: nat, useDirect: bool, sector: nat,
                         durable: bool, via: TailVia, p: Platform)
    requires capacity > 0 && (useDirect ==> sector > 0)
    ensures Covers(PassTrace(mainId, deviceSize, capacity, useDirect, sector, durable, via, p), 0, deviceSize)
    ensures PassTrace(mainId, deviceSize, capacity, useDirect, sector, durable, via, p)[
      |PassTrace(mainId, deviceSize, capacity, useDirect, sector, durable, via, p)| - 1] == Synced(mainId, durable)
  {
    var fl := FullLimit(deviceSize, useDirect, sector);
    var tail: seq<Event> := if useDirect && deviceSize - fl > 0 then TailEvents(via, fl, deviceSize - fl, durable, p) else [];
    ChunkWritesCover(mainId, 0, fl, capacity);
    if useDirect && deviceSize - fl > 0 {
      TailCovers(via, fl, deviceSize - fl, durable, p);
    }
    var sync: seq<Event> := [Synced(mainId, durable)];
    assert Covers(sync, deviceSize, deviceSize) by {
      assert sync[1..] == [];
    }
    CoversAppend(ChunkWrites(mainId, 0, fl, capacity), tail, 0, fl, deviceSize);
    CoversAppend(ChunkWrites(mainId, 0, fl, capacity) + tail, sync, 0, deviceSize, deviceSize);
  }

  /** In direct mode, with a buffer that is a multiple of the sector, the
      main handle only sees sector-aligned offsets and lengths. */
  lemma DirectWritesAligned(mainId: nat, deviceSize: u64, capacity: nat, sector: nat)
    requires capacity > 0 && sector > 0 && capacity % sector == 0
    ensures var w := ChunkWrites(mainId, 0, FullLimit(deviceSize, true, sector), capacity);
      forall k :: 0 <= k < |w| ==> w[k].Wrote? && w[k].offset % sector == 0 && w[k].len % sector == 0
  {
    ChunkWritesAligned(mainId, 0, FullLimit(deviceSize, true, sector), capacity, sector);
  }

  // ---------------------------------------------------------------------
  // Device contents

  /** `s` with `[at, at + n)` overwritten by `pattern` repeated from its
      start. */
  function Tiled(s: seq<byte>, at: nat, n: nat, pattern: seq<byte>): (r: seq<byte>)
    requires at + n <= |s| && |pattern| > 0
    ensures |r| == |s|
    ensures forall i :: 0 <= i < |s| ==> r[i] == if at <= i < at + n then pattern[(i - at) % |pattern|] else s[i]
  {
    seq(|s|, i requires 0 <= i < |s| => if at <= i < at + n then pattern[(i - at) % |pattern|] else s[i])
  }

  lemma TiledStep(s: seq<byte>, at: nat, w: nat, tw: nat, pattern: seq<byte>)
    requires |pattern| > 0 && w % |pattern| == 0 && tw <= |pattern| && at + w + tw <= |s|
    ensures Tiled(s, at, w + tw, pattern) == Splice(Tiled(s, at, w, pattern), at + w, pattern[..tw])
  {
    var a := Tiled(s, at, w + tw, pattern);
    var b := Splice(Tiled(s, at, w, pattern), at + w, pattern[..tw]);
    forall i | 0 <= i < |s|
      ensures a[i] == b[i]
    {
      if at + w <= i < at + w + tw {
        ModWithinBlock(w, i - at - w, |pattern|);
      }
    }
  }

  // ---------------------------------------------------------------------
  // Failures

  /** The operation stopped with `e` because the last device call, or the
      last open or read of the random source, made since the given counts
      failed with `e`. */
  ghost predicate FailedWith(dev: Device, c0: nat, rng: Urandom, o0: nat, k0: nat, e: IoError)
    reads dev, rng
  {
    LastCallFailed(dev.fault, c0, dev.calls, e)
    || SourceFailed(rng.openFault, rng.chunk, o0, rng.openCount, k0, rng.readCount, e)
  }

  /** A failure since later counts is a failure since earlier ones. */
  lemma FailedSince(dev: Device, c0: nat, c1: nat, rng: Urandom, o0: nat, o1: nat, k0: nat, k1: nat, e: IoError)
    requires c0 <= c1 && o0 <= o1 && k0 <= k1 && FailedWith(dev, c1, rng, o1, k1, e)
    ensures FailedWith(dev, c0, rng, o0, k0, e)
  {
  }

  // ---------------------------------------------------------------------
  // The pass itself

  /** `write_full_pass`: writes `buf` repeatedly from the cursor until
      `fullLimit` bytes are written, recording each chunk. The buffer must
      not be empty: with an empty buffer the loop never advances. On
      success the cursor has moved by `fullLimit`, the range holds the
      buffer tiled from its start, the writes are exactly `ChunkWrites`,
      and both progress counters have grown by `fullLimit`. A failing write
      stops the loop at once with that write's error, with the chunks
      written before it in place (the failed write itself writes nothing in
      this model); when no call fails the loop completes. */
  method WriteFullPass(h: Handle, buf: array<byte>, fullLimit: u64, progress: ProgressTracker)
    returns (r: Outcome, written: u64)
    requires buf.Length > 0
    requires h.pos + fullLimit <= |h.dev.contents|
    modifies h, h.dev`calls, h.dev`trace, h.dev`contents
    modifies progress`passBytesDone, progress`totalBytesDone, progress`lineBuf, progress`printed, progress`recorded
    ensures written <= fullLimit && (r.Ok? ==> written == fullLimit)
    ensures h.pos == old(h.pos) + written
    ensures h.dev.contents == Tiled(old(h.dev.contents), old(h.pos), written, buf[..])
    ensures progress.passBytesDone == SatAdd(old(progress.passBytesDone), written)
    ensures progress.totalBytesDone == SatAdd(old(progress.totalBytesDone), written)
    ensures r.Ok? ==> h.dev.trace == old(h.dev.trace) + ChunkWrites(h.id, old(h.pos), fullLimit, buf.Length)
    ensures r.Ok? ==> progress.recorded == old(progress.recorded) + ChunkLens(fullLimit, buf.Length)
    ensures h.dev.calls >= old(h.dev.calls)
    ensures r.Err? ==> (LastCallFailed(h.dev.fault, old(h.dev.calls), h.dev.calls, r.error)
      && h.dev.trace <= old(h.dev.trace) + ChunkWrites(h.id, old(h.pos), fullLimit, buf.Length))
    ensures Faultless(h.dev.fault) ==> r.Ok?
  {
    ghost var p0 := h.pos;
    ghost var c0 := h.dev.contents;
    written := 0;
    assert Tiled(c0, p0, 0, buf[..]) == c0;
    while written < fullLimit
      invariant written <= fullLimit && h.pos == p0 + written
      invariant written % buf.Length == 0 || written == fullLimit
      invariant |h.dev.contents| == |c0|
      invariant h.dev.contents == Tiled(c0, p0, written, buf[..])
      invariant progress.passBytesDone == SatAdd(old(progress.passBytesDone), written)
      invariant progress.totalBytesDone == SatAdd(old(progress.totalBytesDone), written)
      invariant old(h.dev.trace) + ChunkWrites(h.id, p0, fullLimit, buf.Length)
        == h.dev.trace + ChunkWrites(h.id, p0 + written, fullLimit - written, buf.Length)
      invariant old(progress.recorded) + ChunkLens(fullLimit, buf.Length)
        == progress.recorded + ChunkLens(fullLimit - written, buf.Length)
      invariant h.dev.calls >= old(h.dev.calls)
      decreases fullLimit - written
    {
      var remaining: u64 := fullLimit - written;
      var toWrite: u64 := if remaining < buf.Length then remaining else buf.Length;
      ghost var traceBefore := h.dev.trace;
      ghost var recordedBefore := progress.recorded;
      var w := WriteChunk(h, buf, toWrite, progress);
      if w.Err? {
        PrefixOfSum(h.dev.trace, ChunkWrites(h.id, p0 + written, remaining, buf.Length),
                    old(h.dev.trace) + ChunkWrites(h.id, p0, fullLimit, buf.Length));
        return w, written;
      }
      TiledStep(c0, p0, written, toWrite, buf[..]);
      ChunkStep(h.id, p0 + written, remaining, buf.Length, old(h.dev.trace) + ChunkWrites(h.id, p0, fullLimit, buf.Length),
        traceBefore, old(progress.recorded) + ChunkLens(fullLimit, buf.Length), recordedBefore);
      SatAddTwice(old(progress.passBytesDone), written, toWrite);
      SatAddTwice(old(progress.totalBytesDone), written, toWrite);
      if toWrite == buf.Length {
        MultiplesClosed(written, buf.Length, buf.Length);
      }
      written := written + toWrite;
    }
    r := Ok;
  }

  /** One turn of `write_full_pass`: `write_all` of the first `len` bytes,
      then `record_chunk(len)` once the write has succeeded. What the
      tracker renders is left to `RecordChunk`'s own contract. */
  method WriteChunk(h: Handle, buf: array<byte>, len: u64, progress: ProgressTracker) returns (r: Outcome)
    requires len <= buf.Length && h.pos + len <= |h.dev.contents|
    modifies h, h.dev`calls, h.dev`trace, h.dev`contents
    modifies progress`passBytesDone, progress`totalBytesDone, progress`lineBuf, progress`printed, progress`recorded
    ensures h.dev.calls == old(h.dev.calls) + 1
    ensures r.Err? <==> h.dev.fault(old(h.dev.calls)).Some?
    ensures r.Err? ==> r.error == h.dev.fault(old(h.dev.calls)).value
    ensures r.Err? ==> (h.pos == old(h.pos) && h.dev.trace == old(h.dev.trace) && h.dev.contents == old(h.dev.contents)
      && progress.passBytesDone == old(progress.passBytesDone) && progress.totalBytesDone == old(progress.totalBytesDone))
    ensures r.Ok? ==> (h.pos == old(h.pos) + len
      && h.dev.contents == Splice(old(h.dev.contents), old(h.pos), buf[..len])
      && h.dev.trace == old(h.dev.trace) + [Wrote(h.id, old(h.pos), len)]
      && progress.passBytesDone == SatAdd(old(progress.passBytesDone), len)
      && progress.totalBytesDone == SatAdd(old(progress.totalBytesDone), len)
      && progress.recorded == old(progress.recorded) + [len])
  {
    r := h.WriteAll(buf, len);
    if r.Ok? {
      progress.RecordChunk(len);
    }
  }

  /** One turn of the loop moves one chunk from what is still due to what
      has been done, in the trace and in the recorded lengths alike. */
  lemma ChunkStep(id: nat, offset: nat, remaining: nat, capacity: nat, whole: seq<Event>, done: seq<Event>,
                  wholeLens: seq<nat>, doneLens: seq<nat>)
    requires capacity > 0 && remaining > 0
    requires whole == done + ChunkWrites(id, offset, remaining, capacity)
    requires wholeLens == doneLens + ChunkLens(remaining, capacity)
    ensures var m := Min(remaining, capacity);
      whole == (done + [Wrote(id, offset, m)]) + ChunkWrites(id, offset + m, remaining - m, capacity)
      && wholeLens == (doneLens + [m]) + ChunkLens(remaining - m, capacity)
  {
    var m := Min(remaining, capacity);
    assert whole == done + ([Wrote(id, offset, m)] + ChunkWrites(id, offset + m, remaining - m, capacity));
    assert wholeLens == doneLens + ([m] + ChunkLens(remaining - m, capacity));
  }

  /** The fill step: the random source for random passes, zeros
      (`fill(0)`) for the zero pass. Only the first `len` bytes change. */
  method FillBuffer(buf: array<byte>, len: nat, fill: Fill, rng: Urandom) returns (r: Outcome)
    requires len <= buf.Length
    modifies buf, rng
    ensures buf[len..] == old(buf[len..])
    ensures fill == ZeroFill ==> (r.Ok? && (forall i :: 0 <= i < len ==> buf[i] == 0)
      && rng.openCount == old(rng.openCount) && rng.readCount == old(rng.readCount))
    ensures fill == RandomFill && r.Ok? ==> Drawn(rng.chunk, old(rng.readCount), len) == Success(buf[..len])
    ensures fill == RandomFill ==> (r.Ok? <==> (old(rng.openFault(rng.openCount)).None?
      && Drawn(rng.chunk, old(rng.readCount), len).Success?))
    ensures rng.readCount >= old(rng.readCount) && rng.openCount >= old(rng.openCount)
    ensures r.Err? ==> SourceFailed(rng.openFault, rng.chunk, old(rng.openCount), rng.openCount,
                                    old(rng.readCount), rng.readCount, r.error)
    ensures Steady(rng.openFault, rng.chunk) ==> r.Ok?
  {
    match fill {
      case RandomFill =>
        r := FillSecureRandom(buf, len, rng);
      case ZeroFill =>
        var i := 0;
        while i < len
          invariant 0 <= i <= len
          invariant forall j :: 0 <= j < i ==> buf[j] == 0
          invariant buf[len..] == old(buf[len..])
          invariant rng.openCount == old(rng.openCount) && rng.readCount == old(rng.readCount)
        {
          buf[i] := 0;
          i := i + 1;
        }
        r := Ok;
    }
  }

  /** The tail handle's identity: the auxiliary handle when there is one,
      otherwise the handle about to be opened. */
  function ViaFor(tailHandle: Handle?, next: nat): TailVia {
    if tailHandle != null then ViaAux(tailHandle.id) else ViaFresh(next)
  }

  /** The tail of a direct-mode pass: the tail buffer is sized to `len`,
      filled, and written at `at` through the auxiliary handle or through a
      freshly opened Fast-mode handle, then recorded and flushed. */
  method WriteTail(dev: Device, at: u64, len: u64, fill: Fill, durable: bool, build: Build,
                   progress: ProgressTracker, buffers: Buffers, tailHandle: Handle?, rng: Urandom)
    returns (r: Outcome)
    requires buffers.Valid() && len > 0 && at + len == |dev.contents|
    requires tailHandle != null ==> tailHandle.dev == dev
    modifies dev`calls, dev`trace, dev`contents, dev`nextHandle
    modifies progress`passBytesDone, progress`totalBytesDone, progress`lineBuf, progress`printed, progress`recorded
    modifies buffers`tail, buffers.tail, rng
    modifies if tailHandle == null then {} else {tailHandle}
    ensures buffers.Valid() && buffers.main == old(buffers.main) && buffers.main[..] == old(buffers.main[..])
    ensures |dev.contents| == old(|dev.contents|)
    ensures buffers.tail == old(buffers.tail) || fresh(buffers.tail)
    ensures r.Ok? ==> (buffers.tail.Length >= len
      && dev.contents == Splice(old(dev.contents), at, buffers.tail[..len])
      && dev.trace == old(dev.trace) + TailEvents(ViaFor(tailHandle, old(dev.nextHandle)), at, len, durable, build.platform)
      && progress.passBytesDone == SatAdd(old(progress.passBytesDone), len)
      && progress.totalBytesDone == SatAdd(old(progress.totalBytesDone), len)
      && progress.recorded == old(progress.recorded) + [len])
    ensures r.Ok? && fill == ZeroFill ==> forall i :: 0 <= i < len ==> buffers.tail[i] == 0
    ensures r.Ok? && fill == RandomFill ==> Drawn(rng.chunk, old(rng.readCount), len) == Success(buffers.tail[..len])
    ensures dev.calls >= old(dev.calls) && rng.openCount >= old(rng.openCount) && rng.readCount >= old(rng.readCount)
    ensures r.Err? ==> (FailedWith(dev, old(dev.calls), rng, old(rng.openCount), old(rng.readCount), r.error)
      && dev.trace <= old(dev.trace) + TailEvents(ViaFor(tailHandle, old(dev.nextHandle)), at, len, durable, build.platform))
    ensures Faultless(dev.fault) && Steady(rng.openFault, rng.chunk) ==> r.Ok?
  {
    ghost var via := ViaFor(tailHandle, old(dev.nextHandle));
    ghost var sent := [Seeked(via.id, at), Wrote(via.id, at, len), Synced(via.id, durable)];
    var tbuf := buffers.TailBuf(len);
    r := FillBuffer(tbuf, len, fill, rng);
    if r.Err? {
      PrefixOfSum(dev.trace, TailEvents(via, at, len, durable, build.platform), dev.trace + TailEvents(via, at, len, durable, build.platform));
      return;
    }
    ghost var t0 := dev.trace;
    var w := TailWriter(dev, tailHandle, build.platform);
    if w.Failure? {
      ghost var afterOpen := t0 + [Opened(via.id, FlagsFor(Fast, build.platform)), Seeked(via.id, 0)];
      TailTrace(t0, afterOpen, afterOpen + sent, via, at, len, durable, build.platform);
      PrefixExtend(dev.trace, afterOpen, sent);
      return Err(w.error);
    }
    ghost var t1 := dev.trace;
    r := SendTail(w.value, at, tbuf, len, durable, build, progress);
    TailTrace(t0, t1, t1 + sent, via, at, len, durable, build.platform);
  }

  /** The tail events as the writer and the write produce them: the open
      and rewind of a fresh handle (if any), then seek, write and flush. */
  lemma TailTrace(t0: seq<Event>, t1: seq<Event>, t2: seq<Event>, via: TailVia, at: nat, len: nat,
                  durable: bool, p: Platform)
    requires via.ViaAux? ==> t1 == t0
    requires via.ViaFresh? ==> t1 == t0 + [Opened(via.id, FlagsFor(Fast, p)), Seeked(via.id, 0)]
    requires t2 == t1 + [Seeked(via.id, at), Wrote(via.id, at, len), Synced(via.id, durable)]
    ensures t2 == t0 + TailEvents(via, at, len, durable, p)
  {
    if via.ViaFresh? {
      assert t2 == t0 + ([Opened(via.id, FlagsFor(Fast, p)), Seeked(via.id, 0)]
        + [Seeked(via.id, at), Wrote(via.id, at, len), Synced(via.id, durable)]);
    }
  }

  /** The handle the tail goes through: the auxiliary one when it exists,
      otherwise a Fast-mode handle opened now. */
  method TailWriter(dev: Device, tailHandle: Handle?, p: Platform) returns (r: Result<Handle>)
    requires tailHandle != null ==> tailHandle.dev == dev
    modifies dev`calls, dev`nextHandle, dev`trace
    ensures dev.contents == old(dev.contents)
    ensures r.Success? ==> (r.value.dev == dev && r.value.id == ViaFor(tailHandle, old(dev.nextHandle)).id
      && (tailHandle != null ==> r.value == tailHandle && dev.trace == old(dev.trace))
      && (tailHandle == null ==> fresh(r.value) && dev.trace == old(dev.trace) + [Opened(r.value.id, FlagsFor(Fast, p)), Seeked(r.value.id, 0)]))
    ensures dev.calls >= old(dev.calls)
    ensures r.Failure? ==> (tailHandle == null && LastCallFailed(dev.fault, old(dev.calls), dev.calls, r.error)
      && dev.trace <= old(dev.trace) + [Opened(old(dev.nextHandle), FlagsFor(Fast, p)), Seeked(old(dev.nextHandle), 0)])
    ensures Faultless(dev.fault) ==> r.Success?
  {
    if tailHandle != null {
      return Success(tailHandle);
    }
    r := OpenDeviceWritable(dev, Fast, p);
  }

  /** Seek to `at`, write the first `len` bytes of `tbuf`, record them and
      flush the writer. */
  method SendTail(writer: Handle, at: u64, tbuf: array<byte>, len: u64, durable: bool, build: Build,
                  progress: ProgressTracker)
    returns (r: Outcome)
    requires len <= tbuf.Length && at + len == |writer.dev.contents|
    modifies writer, writer.dev`calls, writer.dev`trace, writer.dev`contents
    modifies progress`passBytesDone, progress`totalBytesDone, progress`lineBuf, progress`printed, progress`recorded
    ensures |writer.dev.contents| == old(|writer.dev.contents|)
    ensures r.Ok? ==> (writer.dev.contents == Splice(old(writer.dev.contents), at, tbuf[..len])
      && writer.dev.trace == old(writer.dev.trace) + [Seeked(writer.id, at), Wrote(writer.id, at, len), Synced(writer.id, durable)]
      && progress.passBytesDone == SatAdd(old(progress.passBytesDone), len)
      && progress.totalBytesDone == SatAdd(old(progress.totalBytesDone), len)
      && progress.recorded == old(progress.recorded) + [len])
    ensures writer.dev.calls >= old(writer.dev.calls)
    ensures r.Err? ==> (LastCallFailed(writer.dev.fault, old(writer.dev.calls), writer.dev.calls, r.error)
      && writer.dev.trace <= old(writer.dev.trace) + [Seeked(writer.id, at), Wrote(writer.id, at, len), Synced(writer.id, durable)])
    ensures Faultless(writer.dev.fault) ==> r.Ok?
  {
    ghost var sent := [Seeked(writer.id, at), Wrote(writer.id, at, len), Synced(writer.id, durable)];
    r := writer.Seek(at);
    if r.Err? {
      PrefixOfSum(writer.dev.trace, sent, old(writer.dev.trace) + sent);
      return;
    }
    r := writer.WriteAll(tbuf, len);
    if r.Err? {
      assert (old(writer.dev.trace) + [Seeked(writer.id, at)]) + sent[1..] == old(writer.dev.trace) + sent;
      PrefixOfSum(writer.dev.trace, sent[1..], old(writer.dev.trace) + sent);
      return;
    }
    progress.RecordChunk(len);
    if durable {
      r := FullSync(writer, build);
    } else {
      r := SafeSync(writer, build.platform);
    }
  }

  /** What is left for the tail after the main loop: nothing in buffered
      mode, the sub-sector remainder in direct mode. */
  function TailLen(deviceSize: u64, useDirect: bool, sector: nat): (r: u64)
    requires useDirect ==> sector > 0
    ensures FullLimit(deviceSize, useDirect, sector) + r == if useDirect then deviceSize else FullLimit(deviceSize, useDirect, sector)
  {
    if useDirect then deviceSize - FullLimit(deviceSize, useDirect, sector) else 0
  }

  /** The first half of a pass: fill the main buffer and write it over
      `[0, fullLimit)`. */
  method MainPhase(h: Handle, fullLimit: u64, fill: Fill, progress: ProgressTracker,
                   buffers: Buffers, rng: Urandom)
    returns (r: Outcome)
    requires buffers.Valid() && buffers.main.Length > 0
    requires h.pos == 0 && fullLimit <= |h.dev.contents|
    modifies h, h.dev`calls, h.dev`trace, h.dev`contents
    modifies progress`passBytesDone, progress`totalBytesDone, progress`lineBuf, progress`printed, progress`recorded
    modifies buffers.main, rng
    ensures |h.dev.contents| == old(|h.dev.contents|)
    ensures r.Ok? ==> (h.dev.contents == Tiled(old(h.dev.contents), 0, fullLimit, buffers.main[..])
      && h.dev.trace == old(h.dev.trace) + ChunkWrites(h.id, 0, fullLimit, buffers.main.Length)
      && progress.passBytesDone == SatAdd(old(progress.passBytesDone), fullLimit)
      && progress.totalBytesDone == SatAdd(old(progress.totalBytesDone), fullLimit)
      && progress.recorded == old(progress.recorded) + ChunkLens(fullLimit, buffers.main.Length))
    ensures r.Ok? && fill == ZeroFill ==> forall i :: 0 <= i < buffers.main.Length ==> buffers.main[i] == 0
    ensures r.Ok? && fill == RandomFill ==>
      Drawn(rng.chunk, old(rng.readCount), buffers.main.Length) == Success(buffers.main[..])
    ensures h.dev.calls >= old(h.dev.calls) && rng.openCount >= old(rng.openCount) && rng.readCount >= old(rng.readCount)
    ensures r.Err? ==> (FailedWith(h.dev, old(h.dev.calls), rng, old(rng.openCount), old(rng.readCount), r.error)
      && h.dev.trace <= old(h.dev.trace) + ChunkWrites(h.id, 0, fullLimit, buffers.main.Length))
    ensures Faultless(h.dev.fault) && Steady(rng.openFault, rng.chunk) ==> r.Ok?
  {
    var buf := buffers.main;
    r := FillBuffer(buf, buf.Length, fill, rng);
    if r.Err? {
      PrefixOfSum(h.dev.trace, ChunkWrites(h.id, 0, fullLimit, buf.Length),
                  h.dev.trace + ChunkWrites(h.id, 0, fullLimit, buf.Length));
      return;
    }
    assert buf[..buf.Length] == buf[..];
    var written;
    r, written := WriteFullPass(h, buf, fullLimit, progress);
  }

  /** The second half of a pass: in direct mode (and in a build with the
      `direct` feature) write the tail, if any, then flush the main
      handle. */
  method FinishPhase(h: Handle, fullLimit: u64, tail: u64, fill: Fill, durable: bool, build: Build,
                     progress: ProgressTracker, buffers: Buffers, tailHandle: Handle?, rng: Urandom)
    returns (r: Outcome)
    requires buffers.Valid()
    requires fullLimit + tail == |h.dev.contents|
    requires tail > 0 ==> build.direct && buffers.useDirect
    requires tailHandle != null ==> tailHandle.dev == h.dev && tailHandle != h
    modifies h.dev`calls, h.dev`trace, h.dev`contents, h.dev`nextHandle
    modifies progress`passBytesDone, progress`totalBytesDone, progress`lineBuf, progress`printed, progress`recorded
    modifies buffers`tail, buffers.tail, rng
    modifies if tailHandle == null then {} else {tailHandle}
    ensures buffers.Valid() && buffers.main == old(buffers.main) && buffers.main[..] == old(buffers.main[..])
    ensures |h.dev.contents| == old(|h.dev.contents|)
    ensures buffers.tail == old(buffers.tail) || fresh(buffers.tail)
    ensures r.Ok? && tail == 0 ==> (h.dev.contents == old(h.dev.contents)
      && h.dev.trace == old(h.dev.trace) + [Synced(h.id, durable)]
      && progress.passBytesDone == old(progress.passBytesDone)
      && progress.totalBytesDone == old(progress.totalBytesDone)
      && progress.recorded == old(progress.recorded))
    ensures r.Ok? && tail > 0 ==> (buffers.tail.Length >= tail
      && h.dev.contents == Splice(old(h.dev.contents), fullLimit, buffers.tail[..tail])
      && h.dev.trace == old(h.dev.trace)
        + TailEvents(ViaFor(tailHandle, old(h.dev.nextHandle)), fullLimit, tail, durable, build.platform)
        + [Synced(h.id, durable)]
      && progress.passBytesDone == SatAdd(old(progress.passBytesDone), tail)
      && progress.totalBytesDone == SatAdd(old(progress.totalBytesDone), tail)
      && progress.recorded == old(progress.recorded) + [tail])
    ensures r.Ok? && tail > 0 && fill == ZeroFill ==> forall i :: 0 <= i < tail ==> buffers.tail[i] == 0
    ensures h.dev.calls >= old(h.dev.calls) && rng.openCount >= old(rng.openCount) && rng.readCount >= old(rng.readCount)
    ensures r.Err? ==> FailedWith(h.dev, old(h.dev.calls), rng, old(rng.openCount), old(rng.readCount), r.error)
    ensures r.Err? && tail == 0 ==> h.dev.trace <= old(h.dev.trace) + [Synced(h.id, durable)]
    ensures r.Err? && tail > 0 ==>
      h.dev.trace <= old(h.dev.trace)
        + TailEvents(ViaFor(tailHandle, old(h.dev.nextHandle)), fullLimit, tail, durable, build.platform)
        + [Synced(h.id, durable)]
    ensures Faultless(h.dev.fault) && Steady(rng.openFault, rng.chunk) ==> r.Ok?
  {
    if tail > 0 {
      r := WriteTail(h.dev, fullLimit, tail, fill, durable, build, progress, buffers, tailHandle, rng);
      if r.Err? {
        PrefixExtend(h.dev.trace, old(h.dev.trace)
          + TailEvents(ViaFor(tailHandle, old(h.dev.nextHandle)), fullLimit, tail, durable, build.platform),
          [Synced(h.id, durable)]);
        return;
      }
    }
    ghost var c1, o1, k1 := h.dev.calls, rng.openCount, rng.readCount;
    // `finish_line` only writes a newline to standard output.
    if durable {
      r := FullSync(h, build);
    } else {
      r := SafeSync(h, build.platform);
    }
    if r.Err? {
      FailedSince(h.dev, old(h.dev.calls), c1, rng, old(rng.openCount), o1, old(rng.readCount), k1, r.error);
    }
  }

  /** One pass: fill the main buffer, write it up to the full limit, write
      the tail in direct mode, flush the main handle (soft or full as
      `durable` says). On success every byte of the device has been
      written exactly once (`PassTrace`, `PassCoversDevice`): the full
      range holds the main buffer tiled from offset 0, the rest the tail
      buffer; a zero pass leaves the device all zero; both progress
      counters have grown by the device size. The `direct` feature is on
      whenever the buffers are in direct mode, since only that feature
      provides the Direct mode that selects it. */
  method RunPass(h: Handle, deviceSize: u64, fill: Fill, durable: bool, sector: nat, build: Build,
                 progress: ProgressTracker, buffers: Buffers, tailHandle: Handle?, rng: Urandom)
    returns (r: Outcome)
    requires buffers.Valid() && buffers.main.Length > 0
    requires h.pos == 0 && deviceSize == |h.dev.contents|
    requires buffers.useDirect ==> sector > 0 && build.direct
    requires tailHandle != null ==> tailHandle.dev == h.dev && tailHandle != h
    modifies h, h.dev`calls, h.dev`trace, h.dev`contents, h.dev`nextHandle
    modifies progress`passBytesDone, progress`totalBytesDone, progress`lineBuf, progress`printed, progress`recorded
    modifies buffers`tail, buffers.main, buffers.tail, rng
    modifies if tailHandle == null then {} else {tailHandle}
    ensures buffers.Valid() && buffers.main == old(buffers.main)
    ensures |h.dev.contents| == deviceSize
    ensures buffers.tail == old(buffers.tail) || fresh(buffers.tail)
    ensures r.Ok? ==>
      PassImage(h.dev.contents, FullLimit(deviceSize, buffers.useDirect, sector), buffers.main[..], buffers.tail[..])
    ensures r.Ok? && fill == ZeroFill ==> forall i :: 0 <= i < deviceSize ==> h.dev.contents[i] == 0
    ensures r.Ok? && fill == RandomFill ==>
      Drawn(rng.chunk, old(rng.readCount), buffers.main.Length) == Success(buffers.main[..])
    ensures r.Ok? ==> (progress.passBytesDone == SatAdd(old(progress.passBytesDone), deviceSize)
      && progress.totalBytesDone == SatAdd(old(progress.totalBytesDone), deviceSize))
    ensures r.Ok? ==> var fl := FullLimit(deviceSize, buffers.useDirect, sector);
      progress.recorded == old(progress.recorded) + ChunkLens(fl, buffers.main.Length)
        + (if buffers.useDirect && deviceSize - fl > 0 then [deviceSize - fl] else [])
    ensures r.Ok? ==> h.dev.trace == old(h.dev.trace) + PassTrace(h.id, deviceSize, buffers.main.Length,
      buffers.useDirect, sector, durable, ViaFor(tailHandle, old(h.dev.nextHandle)), build.platform)
    ensures h.dev.calls >= old(h.dev.calls) && rng.openCount >= old(rng.openCount) && rng.readCount >= old(rng.readCount)
    ensures r.Err? ==> (FailedWith(h.dev, old(h.dev.calls), rng, old(rng.openCount), old(rng.readCount), r.error)
      && h.dev.trace <= old(h.dev.trace) + PassTrace(h.id, deviceSize, buffers.main.Length,
        buffers.useDirect, sector, durable, ViaFor(tailHandle, old(h.dev.nextHandle)), build.platform))
    ensures Faultless(h.dev.fault) && Steady(rng.openFault, rng.chunk) ==> r.Ok?
  {
    var useDirect := buffers.useDirect;
    var fullLimit := FullLimit(deviceSize, useDirect, sector);
    ghost var c0 := h.dev.contents;
    r := MainPhase(h, fullLimit, fill, progress, buffers, rng);
    if r.Err? {
      MainPrefix(h.id, deviceSize, buffers.main.Length, useDirect, sector, durable,
                 ViaFor(tailHandle, old(h.dev.nextHandle)), build.platform, old(h.dev.trace), h.dev.trace);
      return;
    }
    ghost var c1, o1, k1 := h.dev.calls, rng.openCount, rng.readCount;
    ghost var pattern := buffers.main[..];
    ghost var afterMain := h.dev.contents;
    ghost var t1 := h.dev.trace;
    ghost var rec1 := progress.recorded;
    // `write_full_pass` leaves `written_total == full_limit`, so the tail is
    // `device_size - full_limit`.
    var tail: u64 := if build.direct && useDirect then SatSub(deviceSize, fullLimit) else 0;
    assert tail == TailLen(deviceSize, useDirect, sector);
    r := FinishPhase(h, fullLimit, tail, fill, durable, build, progress, buffers, tailHandle, rng);
    if r.Err? {
      FailedSince(h.dev, old(h.dev.calls), c1, rng, old(rng.openCount), o1, old(rng.readCount), k1, r.error);
      FinishPrefix(h.id, deviceSize, buffers.main.Length, useDirect, sector, durable,
                   ViaFor(tailHandle, old(h.dev.nextHandle)), build.platform, tail,
                   old(h.dev.trace), t1, h.dev.trace);
      return;
    }
    SatAddTwice(old(progress.passBytesDone), fullLimit, tail);
    SatAddTwice(old(progress.totalBytesDone), fullLimit, tail);
    RecordedSplit(old(progress.recorded), rec1, progress.recorded, ChunkLens(fullLimit, buffers.main.Length),
                  tail, useDirect && deviceSize - fullLimit > 0);
    ghost var tailBuf := buffers.tail[..];
    PassContents(c0, fullLimit, tail, pattern, tailBuf, h.dev.contents, fill == ZeroFill);
    PassTraceSplit(h.id, deviceSize, buffers.main.Length, useDirect, sector, durable,
                   ViaFor(tailHandle, old(h.dev.nextHandle)), build.platform, tail,
                   old(h.dev.trace), t1, h.dev.trace);
  }

  /** `PassTrace` as the two phases produce it: the chunk writes, the tail
      events when there is a tail, and the final flush. */
  lemma PassTraceSplit(mainId: nat, deviceSize: u64, capacity: nat, useDirect: bool, sector: nat,
                       durable: bool, via: TailVia, p: Platform, tail: nat,
                       t0: seq<Event>, t1: seq<Event>, t2: seq<Event>)
    requires capacity > 0 && (useDirect ==> sector > 0)
    requires tail == 0 || tail == deviceSize - FullLimit(deviceSize, useDirect, sector)
    requires useDirect && deviceSize - FullLimit(deviceSize, useDirect, sector) > 0 ==> tail > 0
    requires tail > 0 ==> useDirect
    requires t1 == t0 + ChunkWrites(mainId, 0, FullLimit(deviceSize, useDirect, sector), capacity)
    requires tail == 0 ==> t2 == t1 + [Synced(mainId, durable)]
    requires tail > 0 ==>
      t2 == t1 + TailEvents(via, FullLimit(deviceSize, useDirect, sector), tail, durable, p) + [Synced(mainId, durable)]
    ensures t2 == t0 + PassTrace(mainId, deviceSize, capacity, useDirect, sector, durable, via, p)
  {
    var cw := ChunkWrites(mainId, 0, FullLimit(deviceSize, useDirect, sector), capacity);
    if tail > 0 {
      var te := TailEvents(via, FullLimit(deviceSize, useDirect, sector), tail, durable, p);
      assert t2 == t0 + (cw + te + [Synced(mainId, durable)]);
    } else {
      assert t2 == t0 + (cw + [] + [Synced(mainId, durable)]);
    }
  }

  /** A pass that stops during its main phase has logged a prefix of its
      trace. */
  lemma MainPrefix(mainId: nat, deviceSize: u64, capacity: nat, useDirect: bool, sector: nat,
                   durable: bool, via: TailVia, p: Platform, t0: seq<Event>, t: seq<Event>)
    requires capacity > 0 && (useDirect ==> sector > 0)
    requires t <= t0 + ChunkWrites(mainId, 0, FullLimit(deviceSize, useDirect, sector), capacity)
    ensures t <= t0 + PassTrace(mainId, deviceSize, capacity, useDirect, sector, durable, via, p)
  {
    var fl := FullLimit(deviceSize, useDirect, sector);
    var cw := ChunkWrites(mainId, 0, fl, capacity);
    var rest := (if useDirect && deviceSize - fl > 0 then TailEvents(via, fl, deviceSize - fl, durable, p) else [])
      + [Synced(mainId, durable)];
    assert t0 + PassTrace(mainId, deviceSize, capacity, useDirect, sector, durable, via, p) == (t0 + cw) + rest;
    PrefixExtend(t, t0 + cw, rest);
  }

  /** A pass that stops during its second phase has logged a prefix of
      its trace. */
  lemma FinishPrefix(mainId: nat, deviceSize: u64, capacity: nat, useDirect: bool, sector: nat,
                     durable: bool, via: TailVia, p: Platform, tail: nat,
                     t0: seq<Event>, t1: seq<Event>, t: seq<Event>)
    requires capacity > 0 && (useDirect ==> sector > 0)
    requires tail == 0 || tail == deviceSize - FullLimit(deviceSize, useDirect, sector)
    requires useDirect && deviceSize - FullLimit(deviceSize, useDirect, sector) > 0 ==> tail > 0
    requires tail > 0 ==> useDirect
    requires t1 == t0 + ChunkWrites(mainId, 0, FullLimit(deviceSize, useDirect, sector), capacity)
    requires tail == 0 ==> t <= t1 + [Synced(mainId, durable)]
    requires tail > 0 ==>
      t <= t1 + TailEvents(via, FullLimit(deviceSize, useDirect, sector), tail, durable, p) + [Synced(mainId, durable)]
    ensures t <= t0 + PassTrace(mainId, deviceSize, capacity, useDirect, sector, durable, via, p)
  {
    var fl := FullLimit(deviceSize, useDirect, sector);
    var full := if tail > 0 then t1 + TailEvents(via, fl, tail, durable, p) + [Synced(mainId, durable)]
                else t1 + [Synced(mainId, durable)];
    PassTraceSplit(mainId, deviceSize, capacity, useDirect, sector, durable, via, p, tail, t0, t1, full);
  }

  /** The chunk lengths a pass records: those of the main range, then the
      tail's when there is one. */
  lemma RecordedSplit(r0: seq<nat>, r1: seq<nat>, r2: seq<nat>, main: seq<nat>, tail: nat, withTail: bool)
    requires r1 == r0 + main
    requires tail > 0 <==> withTail
    requires tail == 0 ==> r2 == r1
    requires tail > 0 ==> r2 == r1 + [tail]
    ensures r2 == r0 + main + (if withTail then [tail] else [])
  {
  }

  /** The device after the two phases of a pass: the tiled main range,
      then the tail. */
  lemma PassContents(c0: seq<byte>, fl: nat, tail: nat, pattern: seq<byte>, tailBuf: seq<byte>,
                     result: seq<byte>, zero: bool)
    requires |pattern| > 0 && fl + tail == |c0| && tail <= |tailBuf|
    requires tail == 0 ==> result == Tiled(c0, 0, fl, pattern)
    requires tail > 0 ==> result == Splice(Tiled(c0, 0, fl, pattern), fl, tailBuf[..tail])
    requires zero ==> ((forall i :: 0 <= i < |pattern| ==> pattern[i] == 0)
      && (forall i :: 0 <= i < tail ==> tailBuf[i] == 0))
    ensures |result| == |c0|
    ensures PassImage(result, fl, pattern, tailBuf)
    ensures zero ==> forall i :: 0 <= i < |c0| ==> result[i] == 0
  {
  }

  /** The device after a pass: `[0, fl)` holds `pattern` tiled from offset
      0, the rest holds `tailBuf` from its start. */
  ghost predicate PassImage(result: seq<byte>, fl: nat, pattern: seq<byte>, tailBuf: seq<byte>) {
    |pattern| > 0 && fl <= |result|
    && (forall i :: 0 <= i < fl ==> result[i] == pattern[i % |pattern|])
    && (forall i :: fl <= i < |result| ==> i - fl < |tailBuf| && result[i] == tailBuf[i - fl])
  }
}
