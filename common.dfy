/** Machine integer widths, byte strings, I/O errors and the build
    configuration shared by every module of the wiper model. */
module Common {

  const U64_MAX: int := 0xFFFF_FFFF_FFFF_FFFF

  /** Rust's fixed-width unsigned integers. Arithmetic on `int` is unbounded,
      so every assignment into one of these types is an overflow check. */
  type u8 = x: int | 0 <= x < 0x100
  type u32 = x: int | 0 <= x < 0x1_0000_0000
  type u64 = x: int | 0 <= x <= U64_MAX
  /** The model assumes a 64-bit target, where `usize` and `u64` coincide. */
  type usize = u64
  type byte = u8

  function Min(a: int, b: int): int { if a <= b then a else b }
  function Max(a: int, b: int): int { if a >= b then a else b }

  /** `u64::saturating_add` */
  function SatAdd(a: u64, b: u64): u64 { Min(a + b, U64_MAX) }

  /** `u64::saturating_sub` */
  function SatSub(a: u64, b: u64): u64 { if a >= b then a - b else 0 }

  /** `u64::saturating_mul` */
  function SatMul(a: u64, b: u64): u64 { Min(a * b, U64_MAX) }

  /** Adding in two steps with saturation is adding once with saturation. */
  lemma SatAddTwice(a: u64, b: u64, c: u64)
    requires b + c <= U64_MAX
    ensures SatAdd(SatAdd(a, b), c) == SatAdd(a, b + c)
  {
  }

  lemma MulMono(x: int, s: int)
    requires x >= 1 && s > 0
    ensures x * s >= s
  {
    if x > 1 {
      MulMono(x - 1, s);
      assert x * s == (x - 1) * s + s;
    }
  }

  /** Euclidean division has one quotient and one remainder. */
  lemma DivModUnique(a: int, s: int, q: int, r: int)
    requires s > 0 && a == q * s + r && 0 <= r < s
    ensures a / s == q && a % s == r
  {
    var q0, r0 := a / s, a % s;
    assert a == q0 * s + r0;
    assert (q - q0) * s == r0 - r;
    if q > q0 {
      MulMono(q - q0, s);
    } else if q < q0 {
      MulMono(q0 - q, s);
    }
  }

  lemma MultipleMod(q: nat, s: nat)
    requires s > 0
    ensures (q * s) % s == 0
  {
    DivModUnique(q * s, s, q, 0);
  }

  /** A prefix of `a` is a prefix of everything that starts with `a`. */
  lemma PrefixExtend<T>(t: seq<T>, a: seq<T>, b: seq<T>)
    requires t <= a
    ensures t <= a + b
  {
    assert (a + b)[..|a|] == a;
  }

  /** What is followed by `rest` in `whole` is a prefix of `whole`. */
  lemma PrefixOfSum<T>(t: seq<T>, rest: seq<T>, whole: seq<T>)
    requires t + rest == whole
    ensures t <= whole
  {
    assert whole[..|t|] == t;
  }

  datatype Option<+T> = None | Some(value: T) {
    function GetOr(default: T): T {
      match this
      case Some(v) => v
      case None => default
    }
  }

  /** `std::io::ErrorKind`, restricted to the kinds the core constructs. */
  datatype ErrorKind = InvalidInput | UnexpectedEof | Other

  /** An `std::io::Error`: either it carries a raw OS error code
      (`raw_os_error()` is `Some`) or it was built from a kind. */
  datatype IoError = Os(code: int) | Custom(kind: ErrorKind)

  /** `io::Result<()>` */
  datatype Outcome = Ok | Err(error: IoError)

  /** `io::Result<T>` */
  datatype Result<+T> = Success(value: T) | Failure(error: IoError)

  datatype Platform = Linux | MacOs

  /** The target operating system and the two cargo features
      (`durable`, `direct`) that the source switches on with `cfg`. */
  datatype Build = Build(platform: Platform, durable: bool, direct: bool)
}
