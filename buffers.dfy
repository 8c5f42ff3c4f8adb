/** `Buffers`: the main write buffer, reused by every pass, and the tail
    buffer for the last partial sector under `O_DIRECT`, which grows on
    demand and never shrinks. */
module Buffering {
  import opened Common
  import opened Dev

  class Buffers {
    var main: array<byte>
    var tail: array<byte>
    const useDirect: bool

    /** The two buffers are distinct, so filling one leaves the other. */
    predicate Valid()
      reads this
    {
      main != tail
    }

    constructor Init(main: array<byte>, tailCapacity: nat, useDirect: bool)
      ensures this.main == main && this.useDirect == useDirect
      ensures fresh(tail) && tail.Length == tailCapacity
      ensures forall i :: 0 <= i < tail.Length ==> tail[i] == 0
      ensures Valid()
    {
      this.main := main;
      tail := new byte[tailCapacity](_ => 0);
      this.useDirect := useDirect;
    }

    /** `tail_buf(len)`: the tail is resized to `len`, zero-extended, only
        when it is shorter; the caller uses its first `len` bytes. */
    method TailBuf(len: nat) returns (t: array<byte>)
      requires Valid()
      modifies this`tail
      ensures Valid() && t == tail && main == old(main)
      ensures tail.Length == Max(old(tail.Length), len) && len <= t.Length
      ensures old(tail.Length) >= len ==> tail == old(tail)
      ensures old(tail.Length) < len ==> (fresh(tail)
        && tail[..old(tail.Length)] == old(tail[..])
        && forall i :: old(tail.Length) <= i < len ==> tail[i] == 0)
    {
      if tail.Length < len {
        var grown := new byte[len](_ => 0);
        var i := 0;
        while i < tail.Length
          invariant tail == old(tail) && grown.Length == len && tail.Length < len
          invariant 0 <= i <= tail.Length
          invariant grown[..i] == tail[..i]
          invariant forall j :: tail.Length <= j < len ==> grown[j] == 0
        {
          grown[i] := tail[i];
          i := i + 1;
        }
        assert grown[..tail.Length] == old(tail[..]);
        tail := grown;
      }
      t := tail;
    }
  }

  /** `Buffers::new`: in direct mode the main buffer comes from
      `alloc_aligned` with the sector as alignment, and the tail starts at
      `max(sector, 1)` bytes; otherwise the main buffer is an ordinary
      zeroed one and the tail starts empty. Both start all zero. */
  method NewBuffers(bufSize: usize, useDirect: bool, sector: usize, b: Build, memalignRc: int)
    returns (r: Result<Buffers>)
    ensures r.Success? ==> (fresh(r.value) && fresh(r.value.main) && fresh(r.value.tail)
      && r.value.Valid() && r.value.useDirect == useDirect
      && r.value.main.Length == bufSize
      && r.value.tail.Length == (if useDirect then Max(sector, 1) else 0)
      && (forall i :: 0 <= i < bufSize ==> r.value.main[i] == 0)
      && (forall i :: 0 <= i < r.value.tail.Length ==> r.value.tail[i] == 0))
    ensures useDirect && b.platform == Linux && b.direct && !IsPowerOfTwo(sector) ==>
      r == Failure(Custom(InvalidInput))
    ensures useDirect && b.platform == Linux && b.direct && IsPowerOfTwo(sector) ==>
      (r.Failure? <==> memalignRc != 0) && (r.Failure? ==> r.error == Os(memalignRc))
    ensures !(useDirect && b.platform == Linux && b.direct) ==> r.Success?
    ensures r.Failure? <==> useDirect && AllocFails(sector, b, memalignRc)
    ensures r.Failure? ==> r.error == AllocError(sector, memalignRc)
  {
    var main: array<byte>;
    if useDirect {
      var a := AllocAligned(bufSize, sector, b, memalignRc);
      if a.Failure? {
        return Failure(a.error);
      }
      main := a.value;
    } else {
      main := new byte[bufSize](_ => 0);
    }
    var tailCapacity := if useDirect then Max(sector, 1) else 0;
    var bufs := new Buffers.Init(main, tailCapacity, useDirect);
    r := Success(bufs);
  }
}
