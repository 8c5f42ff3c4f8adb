/** Device-level helpers: the sync policy, block geometry, buffer sizing,
    aligned allocation, the errno classification of the two flush
    primitives, and opening the device with the flags a mode asks for. */
module Dev {
  import opened Common
  import opened Disk

  // ---------------------------------------------------------------------
  // Sync policy

  /** `SyncMode`. `Durable` exists only in builds with the `durable`
      feature and `Direct` only in builds with the `direct` feature. */
  datatype SyncMode = Fast | Durable | Direct

  /** The variant exists in this build. */
  predicate ModeAvailable(m: SyncMode, b: Build) {
    match m
    case Fast => true
    case Durable => b.durable
    case Direct => b.direct
  }

  /** The name `--mode` takes for each mode, one name per mode. */
  function Label(m: SyncMode): (r: string)
    ensures (r == "fast") == (m == Fast)
    ensures (r == "durable") == (m == Durable)
    ensures (r == "direct") == (m == Direct)
  {
    match m
    case Fast => "fast"
    case Durable => "durable"
    case Direct => "direct"
  }

  function IsDurable(m: SyncMode): (r: bool)
    ensures r <==> m == Durable
    ensures m == Fast ==> !r
  {
    match m
    case Durable => true
    case _ => false
  }

  function IsDirect(m: SyncMode): (r: bool)
    ensures r <==> m == Direct
    ensures m == Fast ==> !r
  {
    match m
    case Direct => true
    case _ => false
  }

  // ---------------------------------------------------------------------
  // Errno classification of the flush primitives

  const ENOTTY: int := 25
  const EINVAL: int := 22

  /** ENOTSUP differs between the two targets (EOPNOTSUPP on Linux). */
  function ENotSup(p: Platform): int {
    match p
    case Linux => 95
    case MacOs => 45
  }

  /** The errors a raw device reports when it has no flush to offer. */
  predicate NotSupported(p: Platform, e: IoError) {
    e.Os? && (e.code == ENOTTY || e.code == ENotSup(p) || e.code == EINVAL)
  }

  /** What `safe_sync` makes of the result of `sync_all`. */
  function SafeSyncOutcome(p: Platform, syncResult: Option<IoError>): (r: Outcome)
    ensures r.Ok? <==> syncResult.None? || NotSupported(p, syncResult.value)
    ensures r.Err? ==> r.error == syncResult.value
  {
    match syncResult
    case None => Ok
    case Some(e) => if NotSupported(p, e) then Ok else Err(e)
  }

  /** What `full_sync` returns, given the result code of `F_FULLFSYNC`
      (macOS only) and the result of the `sync_all` it falls back to. On
      Linux it is a plain `sync_all` whose errors all propagate; without the
      `durable` feature it does nothing. */
  function FullSyncOutcome(b: Build, fullFsyncRc: int, syncResult: Option<IoError>): (r: Outcome)
    ensures !b.durable ==> r == Ok
    ensures b.durable && b.platform == Linux ==>
      (r.Ok? <==> syncResult.None?) && (r.Err? ==> r.error == syncResult.value)
    ensures b.durable && b.platform == MacOs && fullFsyncRc != -1 ==> r == Ok
    ensures b.durable && b.platform == MacOs && fullFsyncRc == -1 ==>
      r == SafeSyncOutcome(MacOs, syncResult)
  {
    if !b.durable then Ok
    else match b.platform
      case Linux => (match syncResult case None => Ok case Some(e) => Err(e))
      case MacOs => if fullFsyncRc == -1 then SafeSyncOutcome(MacOs, syncResult) else Ok
  }

  /** `safe_sync`: a soft flush that tolerates "not supported". */
  method SafeSync(h: Handle, p: Platform) returns (r: Outcome)
    modifies h.dev`calls, h.dev`trace
    ensures h.dev.calls == old(h.dev.calls) + 1
    ensures h.dev.trace == old(h.dev.trace) + [Synced(h.id, false)]
    ensures r == SafeSyncOutcome(p, h.dev.fault(old(h.dev.calls)))
    ensures r.Err? ==> LastCallFailed(h.dev.fault, old(h.dev.calls), h.dev.calls, r.error)
    ensures Faultless(h.dev.fault) ==> r.Ok?
  {
    h.dev.trace := h.dev.trace + [Synced(h.id, false)];
    var e := h.SyncAll();
    r := SafeSyncOutcome(p, e);
  }

  /** `full_sync`: the platform's strongest flush. */
  method FullSync(h: Handle, b: Build) returns (r: Outcome)
    modifies h.dev`calls, h.dev`trace
    ensures h.dev.trace == old(h.dev.trace) + [Synced(h.id, true)]
    ensures h.dev.calls >= old(h.dev.calls)
    ensures !b.durable ==> r == Ok
    ensures b.durable && b.platform == Linux ==>
      r == FullSyncOutcome(b, 0, h.dev.fault(old(h.dev.calls)))
    ensures b.durable && b.platform == MacOs ==>
      r == FullSyncOutcome(b, if h.dev.fault(old(h.dev.calls)).Some? then -1 else 0,
                           h.dev.fault(old(h.dev.calls) + 1))
    ensures r.Err? ==> LastCallFailed(h.dev.fault, old(h.dev.calls), h.dev.calls, r.error)
    ensures Faultless(h.dev.fault) ==> r.Ok?
  {
    h.dev.trace := h.dev.trace + [Synced(h.id, true)];
    if !b.durable {
      return Ok;
    }
    match b.platform {
      case Linux =>
        var e := h.SyncAll();
        r := if e.None? then Ok else Err(e.value);
      case MacOs =>
        var rc := h.FcntlFullFsync();
        if rc == -1 {
          var e := h.SyncAll();
          r := SafeSyncOutcome(MacOs, e);
        } else {
          r := Ok;
        }
    }
  }

  // ---------------------------------------------------------------------
  // Opening the device

  /** The open flags `open_device_writable` uses. On macOS the mode does not
      change the open; `F_NOCACHE` is always set (its result is ignored). */
  function FlagsFor(m: SyncMode, p: Platform): (f: OpenFlags)
    ensures p == Linux ==> f.oSync == (m == Durable) && f.oDirect == (m == Direct) && !f.noCache
    ensures p == MacOs ==> f == OpenFlags(false, false, true)
  {
    match p
    case Linux => OpenFlags(m == Durable, m == Direct, false)
    case MacOs => OpenFlags(false, false, true)
  }

  /** `open_device_writable`: open, then seek to offset 0. It fails exactly
      when one of the two calls does, with that call's error, and then has
      logged at most the open. */
  method OpenDeviceWritable(dev: Device, m: SyncMode, p: Platform) returns (r: Result<Handle>)
    modifies dev`calls, dev`nextHandle, dev`trace
    ensures dev.contents == old(dev.contents)
    ensures dev.calls >= old(dev.calls)
    ensures r.Failure? ==> (LastCallFailed(dev.fault, old(dev.calls), dev.calls, r.error)
      && dev.trace <= old(dev.trace) + [Opened(old(dev.nextHandle), FlagsFor(m, p)), Seeked(old(dev.nextHandle), 0)])
    ensures Faultless(dev.fault) ==> r.Success?
    ensures r.Success? ==> (fresh(r.value) && r.value.dev == dev
      && r.value.id == old(dev.nextHandle) && r.value.flags == FlagsFor(m, p) && r.value.pos == 0
      && dev.nextHandle == old(dev.nextHandle) + 1
      && dev.trace == old(dev.trace) + [Opened(old(dev.nextHandle), FlagsFor(m, p)),
                                        Seeked(old(dev.nextHandle), 0)])
  {
    var o := dev.Open(FlagsFor(m, p));
    if o.Failure? {
      return Failure(o.error);
    }
    var h := o.value;
    var s := h.Seek(0);
    if s.Err? {
      return Failure(s.error);
    }
    r := Success(h);
  }

  // ---------------------------------------------------------------------
  // Block geometry and buffer sizing

  datatype BlockSizes = BlockSizes(logical: u32, physical: u32) {
    /** The strictest granularity: the larger of the two sizes. */
    function Sector(): (r: u32)
      ensures r >= logical && r >= physical
      ensures r == logical || r == physical
    {
      if logical >= physical then logical else physical
    }
  }

  const MIN_BUF: int := 16 * 1024
  const MAX_BUF: int := 1024 * 1024
  const DEFAULT_BUF: int := 64 * 1024

  /** The requested size (64 KiB when none was given) clamped to
      [16 KiB, 1 MiB]. */
  function ClampedTarget(requested: Option<usize>): (r: usize)
    ensures MIN_BUF <= r <= MAX_BUF
    ensures requested.Some? && MIN_BUF <= requested.value <= MAX_BUF ==> r == requested.value
    ensures requested.Some? && requested.value < MIN_BUF ==> r == MIN_BUF
    ensures requested.Some? && requested.value > MAX_BUF ==> r == MAX_BUF
    ensures requested.None? ==> r == DEFAULT_BUF
  {
    var t := requested.GetOr(DEFAULT_BUF);
    if t < MIN_BUF then MIN_BUF else if t > MAX_BUF then MAX_BUF else t
  }

  /** The least multiple of `s` that is at least `x`. */
  ghost predicate LeastMultipleAtLeast(r: int, x: int, s: int)
    requires s > 0
  {
    r % s == 0 && x <= r < x + s
  }

  /** `x` rounded up to a multiple of `s`, the way `choose_buffer_size`
      does it. */
  function RoundUp(x: nat, s: nat): nat
    requires s > 0
  {
    if x % s == 0 then x else x + (s - x % s)
  }

  lemma RoundUpIsLeastMultiple(x: nat, s: nat)
    requires s > 0
    ensures LeastMultipleAtLeast(RoundUp(x, s), x, s)
  {
    if x % s != 0 {
      var q := x / s;
      assert x == q * s + x % s;
      assert RoundUp(x, s) == (q + 1) * s;
      MultipleMod(q + 1, s);
    }
  }

  /** Only one number is the least multiple of `s` at least `x`. */
  lemma LeastMultipleUnique(r1: int, r2: int, x: int, s: int)
    requires s > 0 && LeastMultipleAtLeast(r1, x, s) && LeastMultipleAtLeast(r2, x, s)
    ensures r1 == r2
  {
    if r1 < r2 {
      MultiplesGap(r2, r1, s);
    } else if r2 < r1 {
      MultiplesGap(r1, r2, s);
    }
  }

  /** Two different multiples of `s` are at least `s` apart. */
  lemma MultiplesGap(a: int, b: int, s: int)
    requires s > 0 && a % s == 0 && b % s == 0 && a > b
    ensures a >= b + s
  {
    var qa, qb := a / s, b / s;
    assert a == qa * s by { assert a == (a / s) * s + a % s; }
    assert b == qb * s by { assert b == (b / s) * s + b % s; }
    var d := qa - qb;
    assert a - b == d * s;
    PositiveFactor(d, s);
    MulMono(d, s);
  }

  /** A positive product with a positive factor has a positive other factor. */
  lemma PositiveFactor(d: int, s: int)
    requires d * s > 0 && s > 0
    ensures d >= 1
  {
  }

  /** `choose_buffer_size` */
  method ChooseBufferSize(sizes: BlockSizes, requested: Option<usize>) returns (target: usize)
    requires sizes.Sector() > 0   // the source divides by the sector
    ensures LeastMultipleAtLeast(target, ClampedTarget(requested), sizes.Sector())
  {
    var sector: usize := sizes.Sector();
    target := requested.GetOr(DEFAULT_BUF);
    if target < MIN_BUF {
      target := MIN_BUF;
    }
    if target > MAX_BUF {
      target := MAX_BUF;
    }
    var rem := target % sector;
    if rem != 0 {
      target := target + (sector - rem);
    }
    assert target == RoundUp(ClampedTarget(requested), sector);
    RoundUpIsLeastMultiple(ClampedTarget(requested), sector);
  }

  // ---------------------------------------------------------------------
  // Powers of two

  /** `usize::is_power_of_two` (false for 0). */
  predicate IsPowerOfTwo(n: nat) {
    n == 1 || (n >= 2 && n % 2 == 0 && IsPowerOfTwo(n / 2))
  }

  function Pow2(k: nat): (r: nat)
    ensures r >= 1
  {
    if k == 0 then 1 else 2 * Pow2(k - 1)
  }

  /** The recursive test accepts exactly the powers 2^k. */
  lemma {:induction false} PowerOfTwoIsPow2(n: nat)
    ensures IsPowerOfTwo(n) <==> exists k: nat :: Pow2(k) == n
  {
    if IsPowerOfTwo(n) {
      if n == 1 {
        assert Pow2(0) == n;
      } else {
        PowerOfTwoIsPow2(n / 2);
        var k: nat :| Pow2(k) == n / 2;
        assert Pow2(k + 1) == n;
      }
    }
    if exists k: nat :: Pow2(k) == n {
      var k: nat :| Pow2(k) == n;
      Pow2IsPowerOfTwo(k);
    }
  }

  lemma {:induction false} Pow2IsPowerOfTwo(k: nat)
    ensures IsPowerOfTwo(Pow2(k))
  {
    if k > 0 {
      Pow2IsPowerOfTwo(k - 1);
      assert Pow2(k) / 2 == Pow2(k - 1);
    }
  }

  /** A power of two no larger than 2^j divides 2^j. */
  lemma {:induction false} PowerOfTwoDivides(s: nat, j: nat)
    requires IsPowerOfTwo(s) && s <= Pow2(j)
    ensures Pow2(j) % s == 0
  {
    if s == 1 {
    } else {
      assert j > 0;
      PowerOfTwoDivides(s / 2, j - 1);
      var q := Pow2(j - 1) / (s / 2);
      assert Pow2(j - 1) == q * (s / 2);
      assert Pow2(j) == q * s;
      MultipleMod(q, s);
    }
  }

  lemma Pow2Twenty()
    ensures Pow2(20) == MAX_BUF
  {
    assert Pow2(4) == 16;
    assert Pow2(8) == 256;
    assert Pow2(12) == 4096;
    assert Pow2(16) == 65536;
  }

  /** When the sector is a power of two no larger than 1 MiB, the chosen
      size stays within [16 KiB, 1 MiB]. */
  lemma BufferSizeInRange(sizes: BlockSizes, requested: Option<usize>, target: int)
    requires sizes.Sector() > 0
    requires LeastMultipleAtLeast(target, ClampedTarget(requested), sizes.Sector())
    requires IsPowerOfTwo(sizes.Sector()) && sizes.Sector() <= MAX_BUF
    ensures MIN_BUF <= target <= MAX_BUF
  {
    var s: nat := sizes.Sector();
    Pow2Twenty();
    PowerOfTwoDivides(s, 20);
    if target > MAX_BUF {
      MultiplesGap(target, MAX_BUF, s);
    }
  }

  /** The sizes a 4096-byte sector yields for no request, a tiny request,
      a huge one and one that is not a multiple of the sector. */
  method ChooseBufferSizeExamples() returns (b0: usize, b1: usize, b2: usize, b3: usize)
    ensures b0 == DEFAULT_BUF && b1 == MIN_BUF && b2 == MAX_BUF
    ensures b3 % 4096 == 0 && b3 >= 70 * 1024
  {
    var sizes := BlockSizes(4096, 4096);
    b0 := ChooseBufferSize(sizes, None);
    LeastMultipleUnique(b0, DEFAULT_BUF, DEFAULT_BUF, 4096);
    b1 := ChooseBufferSize(sizes, Some(1));
    LeastMultipleUnique(b1, MIN_BUF, MIN_BUF, 4096);
    b2 := ChooseBufferSize(sizes, Some(10 * 1024 * 1024));
    LeastMultipleUnique(b2, MAX_BUF, MAX_BUF, 4096);
    b3 := ChooseBufferSize(sizes, Some(70 * 1024));
  }

  // ---------------------------------------------------------------------
  // Aligned allocation

  /** `alloc_aligned` fails only on Linux with the `direct` feature: for an
      alignment that is not a power of two, or when `posix_memalign`
      reports an error. */
  predicate AllocFails(align: nat, b: Build, memalignRc: int) {
    b.platform == Linux && b.direct && (!IsPowerOfTwo(align) || memalignRc != 0)
  }

  /** The error of a failing `alloc_aligned`. */
  function AllocError(align: nat, memalignRc: int): IoError {
    if !IsPowerOfTwo(align) then Custom(InvalidInput) else Os(memalignRc)
  }

  /** `alloc_aligned` of a release build. With Linux and `direct` it checks
      the alignment and takes memory from `posix_memalign`, whose result
      code is `memalignRc`, then zero-fills it; elsewhere it returns an
      ordinary zeroed buffer and ignores the alignment. */
  method AllocAligned(len: usize, align: usize, b: Build, memalignRc: int)
    returns (r: Result<array<byte>>)
    ensures r.Success? ==> (fresh(r.value) && r.value.Length == len
      && forall i :: 0 <= i < len ==> r.value[i] == 0)
    ensures b.platform == Linux && b.direct && !IsPowerOfTwo(align) ==>
      r == Failure(Custom(InvalidInput))
    ensures b.platform == Linux && b.direct && IsPowerOfTwo(align) ==>
      (r.Failure? <==> memalignRc != 0) && (r.Failure? ==> r.error == Os(memalignRc))
    ensures !(b.platform == Linux && b.direct) ==> r.Success?
    ensures r.Failure? <==> AllocFails(align, b, memalignRc)
    ensures r.Failure? ==> r.error == AllocError(align, memalignRc)
  {
    if b.platform == Linux && b.direct {
      if !IsPowerOfTwo(align) {
        return Failure(Custom(InvalidInput));
      }
      if memalignRc != 0 {
        return Failure(Os(memalignRc));
      }
      var a := new byte[len];
      var i := 0;
      while i < len
        invariant 0 <= i <= len
        invariant forall j :: 0 <= j < i ==> a[j] == 0
      {
        a[i] := 0;
        i := i + 1;
      }
      r := Success(a);
    } else {
      var a := new byte[len](_ => 0);
      r := Success(a);
    }
  }
}
