/** The kernel's random source, `/dev/urandom`, as a nondeterministic byte
    stream: opening it may fail, and each read hands back whatever chunk the
    oracle chooses (cut to the room the caller offers), an error, or nothing
    at all (end of file). The model says nothing about how random the bytes
    are. */
module Entropy {
  import opened Common

  /** What one `read` call produces before it is cut to the caller's room. */
  datatype ReadResult = Bytes(data: seq<byte>) | ReadFailed(error: IoError)

  /** A read offered `room` bytes returns at most that many. */
  function Clip(c: ReadResult, room: nat): (r: ReadResult)
    ensures r.Bytes? <==> c.Bytes?
    ensures r.Bytes? ==> |r.data| == Min(room, |c.data|) && r.data == c.data[..|r.data|]
    ensures r.Bytes? && |c.data| <= room ==> r.data == c.data
    ensures r.ReadFailed? ==> r == c
  {
    match c
    case Bytes(d) => if |d| <= room then c else Bytes(d[..room])
    case ReadFailed(_) => c
  }

  /** A read that ends the fill with `e`: it failed with `e`, or it
      returned no bytes, which the fill reports as `UnexpectedEof`. */
  predicate ReadFault(c: ReadResult, e: IoError) {
    (c.ReadFailed? && c.error == e) || (c.Bytes? && |c.data| == 0 && e == Custom(UnexpectedEof))
  }

  /** The last open (numbered `o0` to `o1 - 1`) or the last read
      (numbered `k0` to `k1 - 1`) of the source failed, with `e`. */
  ghost predicate SourceFailed(openFault: nat -> Option<IoError>, chunk: nat -> ReadResult,
                               o0: nat, o1: nat, k0: nat, k1: nat, e: IoError) {
    (o0 < o1 && openFault(o1 - 1) == Some(e)) || (k0 < k1 && ReadFault(chunk(k1 - 1), e))
  }

  /** A source that always opens and never runs dry. */
  ghost predicate Steady(openFault: nat -> Option<IoError>, chunk: nat -> ReadResult) {
    (forall j :: openFault(j).None?) && (forall k :: chunk(k).Bytes? && |chunk(k).data| > 0)
  }

  class Urandom {
    /** Answer of the n-th `File::open("/dev/urandom")`. */
    const openFault: nat -> Option<IoError>
    /** Answer of the n-th `read`. */
    const chunk: nat -> ReadResult
    var openCount: nat
    var readCount: nat

    constructor (openFault: nat -> Option<IoError>, chunk: nat -> ReadResult)
      ensures this.openFault == openFault && this.chunk == chunk
      ensures openCount == 0 && readCount == 0
    {
      this.openFault := openFault;
      this.chunk := chunk;
      openCount := 0;
      readCount := 0;
    }

    method Open() returns (e: Option<IoError>)
      modifies this`openCount
      ensures e == openFault(old(openCount)) && openCount == old(openCount) + 1
    {
      e := openFault(openCount);
      openCount := openCount + 1;
    }

    /** `read(&mut buf[from..to])`: stores the chunk at `from` and returns its
        length; bytes outside the chunk are untouched. */
    method Read(buf: array<byte>, from: nat, to: nat) returns (r: Result<nat>)
      requires from <= to <= buf.Length
      modifies buf, this`readCount
      ensures readCount == old(readCount) + 1
      ensures r.Failure? <==> chunk(old(readCount)).ReadFailed?
      ensures r.Failure? ==> r.error == chunk(old(readCount)).error && buf[..] == old(buf[..])
      ensures r.Success? ==> (from + r.value <= to
        && Clip(chunk(old(readCount)), to - from) == Bytes(buf[from..from + r.value])
        && buf[..from] == old(buf[..from]) && buf[from + r.value..] == old(buf[from + r.value..]))
    {
      var c := Clip(chunk(readCount), to - from);
      readCount := readCount + 1;
      match c {
        case ReadFailed(e) =>
          return Failure(e);
        case Bytes(d) =>
          var i := 0;
          while i < |d|
            invariant 0 <= i <= |d| && from + |d| <= to
            invariant readCount == old(readCount) + 1
            invariant buf[from..from + i] == d[..i]
            invariant buf[..from] == old(buf[..from]) && buf[from + |d|..] == old(buf[from + |d|..])
          {
            buf[from + i] := d[i];
            i := i + 1;
          }
          return Success(|d|);
      }
    }
  }

  /** `p` put in front of a successful draw; a failure stays as it is. */
  function Prepend(p: seq<byte>, r: Result<seq<byte>>): Result<seq<byte>> {
    match r
    case Success(s) => Success(p + s)
    case Failure(e) => Failure(e)
  }

  /** What filling `room` bytes yields when reading starts at the oracle's
      `k`-th answer: the concatenated chunks, the first read error, or
      `UnexpectedEof` when a read returns no bytes before the room is full. */
  function Drawn(chunk: nat -> ReadResult, k: nat, room: nat): (r: Result<seq<byte>>)
    ensures r.Success? ==> |r.value| == room
    decreases room
  {
    if room == 0 then Success([])
    else match Clip(chunk(k), room)
      case ReadFailed(e) => Failure(e)
      case Bytes(d) =>
        if |d| == 0 then Failure(Custom(UnexpectedEof))
        else Prepend(d, Drawn(chunk, k + 1, room - |d|))
  }

  /** A source that never runs dry fills any room. */
  lemma {:induction false} SteadyDrawn(openFault: nat -> Option<IoError>, chunk: nat -> ReadResult, k: nat, room: nat)
    requires Steady(openFault, chunk)
    ensures Drawn(chunk, k, room).Success?
    decreases room
  {
    if room > 0 {
      var d := Clip(chunk(k), room).data;
      assert |d| > 0;
      SteadyDrawn(openFault, chunk, k + 1, room - |d|);
    }
  }

  /** One successful, non-empty read moves its bytes from what is still
      to be drawn to what has been drawn. */
  lemma DrawnAdvance(chunk: nat -> ReadResult, k0: nat, len: nat, k: nat, filled: nat,
                     before: seq<byte>, d: seq<byte>)
    requires filled < len && Clip(chunk(k), len - filled) == Bytes(d) && |d| > 0
    requires Drawn(chunk, k0, len) == Prepend(before, Drawn(chunk, k, len - filled))
    ensures filled + |d| <= len
    ensures Drawn(chunk, k0, len) == Prepend(before + d, Drawn(chunk, k + 1, len - (filled + |d|)))
  {
    PrependTwice(before, d, Drawn(chunk, k + 1, len - filled - |d|));
  }

  lemma PrependEmpty(r: Result<seq<byte>>)
    ensures Prepend([], r) == r
  {
    if r.Success? {
      assert [] + r.value == r.value;
    }
  }

  /** Filling in two steps is as good as filling at once. */
  lemma PrependTwice(a: seq<byte>, b: seq<byte>, r: Result<seq<byte>>)
    ensures Prepend(a, Prepend(b, r)) == Prepend(a + b, r)
  {
    if r.Success? {
      assert a + (b + r.value) == (a + b) + r.value;
    }
  }

  /** `fill_secure_random(&mut buf[..len])`: opens the source, then reads
      until the first `len` bytes are filled. It succeeds exactly when the
      open succeeds and the oracle's chunks fill the room, and then
      `buf[..len]` holds those chunks in order. Bytes past `len` are never
      touched. */
  method FillSecureRandom(buf: array<byte>, len: nat, src: Urandom) returns (r: Outcome)
    requires len <= buf.Length
    modifies buf, src
    ensures buf[len..] == old(buf[len..])
    ensures src.readCount >= old(src.readCount) && src.openCount == old(src.openCount) + 1
    ensures old(src.openFault(src.openCount)).Some? ==> r == Err(old(src.openFault(src.openCount)).value)
    ensures old(src.openFault(src.openCount)).None? ==>
      (r.Ok? <==> Drawn(src.chunk, old(src.readCount), len).Success?)
    ensures old(src.openFault(src.openCount)).None? && r.Err? ==>
      Drawn(src.chunk, old(src.readCount), len) == Failure(r.error)
    ensures r.Ok? ==> Drawn(src.chunk, old(src.readCount), len) == Success(buf[..len])
    ensures r.Err? ==> SourceFailed(src.openFault, src.chunk, old(src.openCount), src.openCount,
                                    old(src.readCount), src.readCount, r.error)
    ensures Steady(src.openFault, src.chunk) ==> r.Ok?
  {
    var e := src.Open();
    if e.Some? {
      return Err(e.value);
    }
    ghost var k0 := src.readCount;
    var filled := 0;
    assert buf[..filled] == [];
    PrependEmpty(Drawn(src.chunk, k0, len));
    while filled < len
      invariant 0 <= filled <= len && src.readCount >= old(src.readCount)
      invariant src.openCount == old(src.openCount) + 1
      invariant buf[len..] == old(buf[len..])
      invariant Drawn(src.chunk, k0, len) == Prepend(buf[..filled], Drawn(src.chunk, src.readCount, len - filled))
      decreases len - filled
    {
      ghost var before := buf[..filled];
      ghost var k := src.readCount;
      var n := src.Read(buf, filled, len);
      if n.Failure? {
        return Err(n.error);
      }
      if n.value == 0 {
        assert |Clip(src.chunk(k), len - filled).data| == 0;
        return Err(Custom(UnexpectedEof));
      }
      ghost var d := buf[filled..filled + n.value];
      assert buf[..filled] == before;
      DrawnAdvance(src.chunk, k0, len, k, filled, before, d);
      assert buf[..filled + n.value] == before + d;
      filled := filled + n.value;
    }
    assert buf[..filled] + [] == buf[..len];
    r := Ok;
    if Steady(src.openFault, src.chunk) {
      SteadyDrawn(src.openFault, src.chunk, k0, len);
    }
  }
}
