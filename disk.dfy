/** The operating system as the wiper sees it: a raw block device of fixed
    size and the handles opened on it. Every OS call consults a fault oracle,
    so any call may fail with an arbitrary error; a call that fails has no
    other effect. A ghost trace records, in order, what the program did to
    the device. */
module Disk {
  import opened Common

  /** The open(2) flags the program can ask for. */
  datatype OpenFlags = OpenFlags(oSync: bool, oDirect: bool, noCache: bool)

  /** One observable action on the device, tagged with the handle's id. */
  datatype Event =
    | Opened(handle: nat, flags: OpenFlags)
    | Seeked(handle: nat, offset: nat)
    | Wrote(handle: nat, offset: nat, len: nat)
    | Synced(handle: nat, full: bool)

  /** `s` with the bytes of `b` written over it from offset `at`. */
  function Splice(s: seq<byte>, at: nat, b: seq<byte>): (r: seq<byte>)
    requires at + |b| <= |s|
    ensures |r| == |s|
    ensures forall i :: 0 <= i < |s| ==> r[i] == if at <= i < at + |b| then b[i - at] else s[i]
  {
    s[..at] + b + s[at + |b|..]
  }

  /** Among the OS calls numbered `c0` to `c1 - 1`, the last one failed,
      and `e` is the error it returned. */
  ghost predicate LastCallFailed(fault: nat -> Option<IoError>, c0: nat, c1: nat, e: IoError) {
    c0 < c1 && fault(c1 - 1) == Some(e)
  }

  /** The operating system lets every call succeed. */
  ghost predicate Faultless(fault: nat -> Option<IoError>) {
    forall i :: fault(i).None?
  }

  class Device {
    var contents: seq<byte>
    ghost var trace: seq<Event>
    /** Number of OS calls made so far; the fault oracle is indexed by it. */
    var calls: nat
    /** Id the next opened handle receives. */
    var nextHandle: nat
    const fault: nat -> Option<IoError>

    constructor (contents: seq<byte>, fault: nat -> Option<IoError>)
      requires |contents| <= U64_MAX
      ensures this.contents == contents && this.fault == fault
      ensures trace == [] && calls == 0 && nextHandle == 0
    {
      this.contents := contents;
      this.fault := fault;
      trace := [];
      calls := 0;
      nextHandle := 0;
    }

    /** Consume the oracle's answer for the next OS call. */
    method NextFault() returns (e: Option<IoError>)
      modifies this`calls
      ensures e == fault(old(calls)) && calls == old(calls) + 1
    {
      e := fault(calls);
      calls := calls + 1;
    }

    /** The size query (`ioctl(BLKGETSIZE64)` and its sysfs fallback):
        on success it reports the true size. */
    method QuerySize() returns (r: Result<u64>)
      requires |contents| <= U64_MAX
      modifies this`calls
      ensures r.Success? <==> fault(old(calls)).None?
      ensures r.Success? ==> r.value == |contents|
      ensures r.Failure? ==> r.error == fault(old(calls)).value
      ensures calls == old(calls) + 1
    {
      var e := NextFault();
      if e.Some? {
        return Failure(e.value);
      }
      r := Success(|contents|);
    }

    /** open(2) with the given flags; the new handle's cursor is at 0. */
    method Open(flags: OpenFlags) returns (r: Result<Handle>)
      modifies this`calls, this`nextHandle, this`trace
      ensures contents == old(contents) && calls == old(calls) + 1
      ensures r.Success? <==> fault(old(calls)).None?
      ensures r.Failure? ==> (r.error == fault(old(calls)).value
        && trace == old(trace) && nextHandle == old(nextHandle))
      ensures r.Success? ==> (fresh(r.value) && r.value.dev == this
        && r.value.id == old(nextHandle) && r.value.flags == flags && r.value.pos == 0
        && nextHandle == old(nextHandle) + 1
        && trace == old(trace) + [Opened(old(nextHandle), flags)])
    {
      var e := NextFault();
      if e.Some? {
        return Failure(e.value);
      }
      var h := new Handle(this, nextHandle, flags);
      trace := trace + [Opened(nextHandle, flags)];
      nextHandle := nextHandle + 1;
      r := Success(h);
    }
  }

  class Handle {
    const dev: Device
    const id: nat
    const flags: OpenFlags
    var pos: nat

    constructor (dev: Device, id: nat, flags: OpenFlags)
      ensures this.dev == dev && this.id == id && this.flags == flags && pos == 0
    {
      this.dev := dev;
      this.id := id;
      this.flags := flags;
      pos := 0;
    }

    /** `seek(SeekFrom::Start(offset))` */
    method Seek(offset: u64) returns (r: Outcome)
      modifies this, dev`calls, dev`trace
      ensures dev.calls == old(dev.calls) + 1
      ensures r.Ok? <==> dev.fault(old(dev.calls)).None?
      ensures r.Err? ==> (r.error == dev.fault(old(dev.calls)).value
        && pos == old(pos) && dev.trace == old(dev.trace))
      ensures r.Ok? ==> pos == offset && dev.trace == old(dev.trace) + [Seeked(id, offset)]
    {
      var e := dev.NextFault();
      if e.Some? {
        return Err(e.value);
      }
      pos := offset;
      dev.trace := dev.trace + [Seeked(id, offset)];
      r := Ok;
    }

    /** `write_all(&buf[..len])` at the cursor. The model does not let a
        write run past the end of the device: callers must prove they stay
        inside it. A failing call is modelled as writing nothing: the
        cursor, the contents and the trace stay as they were. */
    method WriteAll(buf: array<byte>, len: nat) returns (r: Outcome)
      requires len <= buf.Length && pos + len <= |dev.contents|
      modifies this, dev`calls, dev`trace, dev`contents
      ensures dev.calls == old(dev.calls) + 1
      ensures r.Ok? <==> dev.fault(old(dev.calls)).None?
      ensures r.Err? ==> (r.error == dev.fault(old(dev.calls)).value
        && pos == old(pos) && dev.trace == old(dev.trace) && dev.contents == old(dev.contents))
      ensures r.Ok? ==> (pos == old(pos) + len
        && dev.contents == Splice(old(dev.contents), old(pos), buf[..len])
        && dev.trace == old(dev.trace) + [Wrote(id, old(pos), len)])
    {
      var e := dev.NextFault();
      if e.Some? {
        return Err(e.value);
      }
      dev.contents := Splice(dev.contents, pos, buf[..len]);
      dev.trace := dev.trace + [Wrote(id, pos, len)];
      pos := pos + len;
      r := Ok;
    }

    /** `File::sync_all` (fsync); `Some(e)` is the error it returned. */
    method SyncAll() returns (err: Option<IoError>)
      modifies dev`calls
      ensures err == dev.fault(old(dev.calls)) && dev.calls == old(dev.calls) + 1
    {
      err := dev.NextFault();
    }

    /** `fcntl(fd, F_FULLFSYNC)` on macOS: -1 on failure, 0 otherwise. */
    method FcntlFullFsync() returns (rc: int)
      modifies dev`calls
      ensures dev.calls == old(dev.calls) + 1
      ensures rc == (if dev.fault(old(dev.calls)).Some? then -1 else 0)
    {
      var e := dev.NextFault();
      rc := if e.Some? then -1 else 0;
    }
  }
}
