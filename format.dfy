/** Byte-level formatting of the progress line: decimal numbers, the
    three-column percentage, two-digit fields and the ETA clock. Each helper
    appends to a byte buffer and returns the extended buffer. */
module Format {
  import opened Common

  const ASCII_0: int := 48
  const COLON: byte := 58
  const SPACE: byte := 32
  const DASH: byte := 45

  predicate IsDigit(b: int) { ASCII_0 <= b <= ASCII_0 + 9 }

  predicate AllDigits(s: seq<byte>) { forall i :: 0 <= i < |s| ==> IsDigit(s[i]) }

  /** Decimal digits of `n`, most significant first. */
  function Digits(n: nat): seq<byte>
    decreases n
  {
    if n < 10 then [ASCII_0 + n] else Digits(n / 10) + [ASCII_0 + n % 10]
  }

  /** The number a string of decimal digits denotes (leading zeros allowed). */
  function DecimalValue(s: seq<byte>): nat
    requires AllDigits(s)
  {
    if s == [] then 0 else DecimalValue(s[..|s| - 1]) * 10 + (s[|s| - 1] - ASCII_0)
  }

  /** The digits of `n` are decimal digits without a leading zero (a lone
      "0" for zero) and read back as `n`. */
  lemma {:induction false} DigitsRoundTrip(n: nat)
    ensures AllDigits(Digits(n)) && |Digits(n)| >= 1
    ensures DecimalValue(Digits(n)) == n
    ensures Digits(n)[0] == ASCII_0 <==> n == 0
  {
    if n >= 10 {
      DigitsRoundTrip(n / 10);
      var d := Digits(n);
      assert d[..|d| - 1] == Digits(n / 10);
    }
  }

  function Pow10(k: nat): nat {
    if k == 0 then 1 else 10 * Pow10(k - 1)
  }

  lemma {:induction false} DigitsLength(n: nat, k: nat)
    requires 1 <= k && n < Pow10(k)
    ensures |Digits(n)| <= k
  {
    if n >= 10 {
      assert k >= 2;
      DigitsLength(n / 10, k - 1);
    }
  }

  /** A `u64` has at most 20 decimal digits. */
  lemma DigitsLengthU64(n: u64)
    ensures 1 <= |Digits(n)| <= 20
  {
    assert Pow10(4) == 10000;
    assert Pow10(8) == 100000000;
    assert Pow10(12) == 1000000000000;
    assert Pow10(16) == 10000000000000000;
    assert Pow10(20) == 100000000000000000000;
    DigitsLength(n, 20);
  }

  /** `push_num`: digits are produced last-first into a 20-byte scratch
      array, then appended. */
  method PushNum(buf: seq<byte>, n: u64) returns (r: seq<byte>)
    ensures r == buf + Digits(n)
  {
    if n == 0 {
      return buf + [ASCII_0];
    }
    var tmp := new byte[20](_ => 0);
    var idx := tmp.Length;
    var m: nat := n;
    DigitsLengthU64(n);
    while m > 0
      invariant 0 <= idx <= 20 && m <= n
      invariant m > 0 ==> |Digits(m)| <= idx
      invariant Digits(n) == (if m == 0 then [] else Digits(m)) + tmp[idx..]
      decreases m
    {
      idx := idx - 1;
      tmp[idx] := ASCII_0 + m % 10;
      m := m / 10;
    }
    r := buf + tmp[idx..];
  }

  /** `push_two_digits`: tens then ones. */
  method PushTwoDigits(buf: seq<byte>, value: u8) returns (r: seq<byte>)
    ensures r == buf + [ASCII_0 + value / 10, ASCII_0 + value % 10]
    ensures value < 100 ==> r == buf + TwoDigits(value)
    ensures value < 100 ==> AllDigits(r[|buf|..]) && DecimalValue(r[|buf|..]) == value
  {
    var tens := value / 10;
    var ones := value % 10;
    r := buf + [ASCII_0 + tens];
    r := r + [ASCII_0 + ones];
    assert r[|buf|..] == [ASCII_0 + tens, ASCII_0 + ones];
    if value < 100 {
      TwoDigitsValue(value);
    }
  }

  function Spaces(k: nat): (r: seq<byte>)
    ensures |r| == k && forall i :: 0 <= i < k ==> r[i] == SPACE
  {
    seq(k, _ => SPACE)
  }

  /** `s` right-aligned in a field of `w` bytes (left as is when longer). */
  function PadLeft(s: seq<byte>, w: nat): seq<byte> {
    if |s| >= w then s else Spaces(w - |s|) + s
  }

  /** `push_percent`: the percentage, capped at 100, right-aligned in a
      field of three. */
  method PushPercent(buf: seq<byte>, percent: u64) returns (r: seq<byte>)
    ensures |r| == |buf| + 3 && r[..|buf|] == buf
    ensures r == buf + PadLeft(Digits(Min(percent, 100)), 3)
  {
    var p := if percent < 100 then percent else 100;
    r := buf;
    if p < 100 {
      if p < 10 {
        r := r + [SPACE];
        r := r + [SPACE];
      } else {
        r := r + [SPACE];
      }
    }
    PercentWidth(p);
    assert r == buf + Spaces(3 - |Digits(p)|);
    r := PushNum(r, p);
    assert r == buf + (Spaces(3 - |Digits(p)|) + Digits(p));
  }

  lemma PercentWidth(p: nat)
    requires p <= 100
    ensures |Digits(p)| == if p < 10 then 1 else if p < 100 then 2 else 3
  {
    if p >= 10 {
      assert |Digits(p)| == |Digits(p / 10)| + 1;
      if p == 100 {
        assert |Digits(10)| == 2;
      }
    }
  }

  /** The field `push_percent` writes holds the capped percentage after
      its leading spaces. */
  lemma PercentFieldValue(percent: u64)
    ensures var p := Min(percent, 100); var f := PadLeft(Digits(p), 3);
      |f| == 3 && exists k :: 0 <= k <= 3 && f[..k] == Spaces(k) && AllDigits(f[k..]) && DecimalValue(f[k..]) == p
  {
    var p := Min(percent, 100);
    PercentWidth(p);
    DigitsRoundTrip(p);
    var f := PadLeft(Digits(p), 3);
    var k := 3 - |Digits(p)|;
    assert f[..k] == Spaces(k) && f[k..] == Digits(p);
  }

  // ---------------------------------------------------------------------
  // ETA clock

  /** `std::time::Duration`: whole seconds and the sub-second part. */
  datatype Duration = Duration(secs: u64, nanos: nat)

  /** Seconds shown for a duration: rounded up when there is a fractional
      part, saturating at the largest `u64`. */
  function ShownSeconds(d: Duration): u64 {
    if d.nanos > 0 then SatAdd(d.secs, 1) else d.secs
  }

  function TwoDigits(v: nat): seq<byte>
    requires v < 100
  {
    [ASCII_0 + v / 10, ASCII_0 + v % 10]
  }

  /** "H:MM:SS" from an hour on, "MM:SS" below it. */
  function Clock(s: u64): seq<byte> {
    if s >= 3600 then Digits(s / 3600) + [COLON] + TwoDigits((s % 3600) / 60) + [COLON] + TwoDigits(s % 60)
    else TwoDigits(s / 60) + [COLON] + TwoDigits(s % 60)
  }

  function EtaText(eta: Option<Duration>): seq<byte> {
    match eta
    case None => [DASH, DASH, COLON, DASH, DASH]
    case Some(d) => Clock(ShownSeconds(d))
  }

  /** Reads a clock back: the last five bytes are "MM:SS"; anything before
      the colon that precedes them is the hours. */
  function ClockValue(t: seq<byte>): int
    requires |t| >= 5
  {
    var mm := t[|t| - 5..|t| - 3];
    var ss := t[|t| - 2..];
    if !AllDigits(mm) || !AllDigits(ss) || t[|t| - 3] != COLON then -1
    else if |t| == 5 then 60 * DecimalValue(mm) + DecimalValue(ss)
    else if |t| >= 7 && t[|t| - 6] == COLON && AllDigits(t[..|t| - 6]) then
      3600 * DecimalValue(t[..|t| - 6]) + 60 * DecimalValue(mm) + DecimalValue(ss)
    else -1
  }

  lemma TwoDigitsValue(v: nat)
    requires v < 100
    ensures AllDigits(TwoDigits(v)) && DecimalValue(TwoDigits(v)) == v
  {
    var t := TwoDigits(v);
    assert t[..1] == [ASCII_0 + v / 10];
    assert t[..1][..0] == [];
    assert DecimalValue(t[..1]) == v / 10;
    assert DecimalValue(t) == (v / 10) * 10 + v % 10;
  }

  /** A clock reads back as the number of seconds it shows; below an hour
      it is exactly five bytes. */
  lemma ClockRoundTrip(s: u64)
    ensures |Clock(s)| >= 5 && ClockValue(Clock(s)) == s
    ensures s < 3600 <==> |Clock(s)| == 5
  {
    TwoDigitsValue(s % 60);
    if s >= 3600 {
      DigitsRoundTrip(s / 3600);
      TwoDigitsValue((s % 3600) / 60);
      HoursLayout(Digits(s / 3600), TwoDigits((s % 3600) / 60), TwoDigits(s % 60));
      HoursMinutesSeconds(s);
    } else {
      TwoDigitsValue(s / 60);
      MinutesLayout(TwoDigits(s / 60), TwoDigits(s % 60));
      MinutesSeconds(s);
    }
  }

  lemma HoursLayout(h: seq<byte>, mm: seq<byte>, ss: seq<byte>)
    requires |h| >= 1 && |mm| == 2 && |ss| == 2
    ensures var t := h + [COLON] + mm + [COLON] + ss;
      |t| == |h| + 6 && t[..|t| - 6] == h && t[|t| - 5..|t| - 3] == mm && t[|t| - 2..] == ss
      && t[|t| - 6] == COLON && t[|t| - 3] == COLON
  {
    var t := h + [COLON] + mm + [COLON] + ss;
    assert t == h + ([COLON] + mm + [COLON] + ss);
  }

  lemma MinutesLayout(mm: seq<byte>, ss: seq<byte>)
    requires |mm| == 2 && |ss| == 2
    ensures var t := mm + [COLON] + ss;
      |t| == 5 && t[..2] == mm && t[3..] == ss && t[2] == COLON
  {
  }

  lemma HoursMinutesSeconds(s: nat)
    ensures 3600 * (s / 3600) + 60 * ((s % 3600) / 60) + s % 60 == s
  {
    var h, rest := s / 3600, s % 3600;
    assert s == 3600 * h + rest;
    var m, sec := rest / 60, rest % 60;
    assert rest == 60 * m + sec;
    assert s % 60 == sec by { DivModUnique(s, 60, 60 * h + m, sec); }
  }

  lemma MinutesSeconds(s: nat)
    ensures 60 * (s / 60) + s % 60 == s
  {
  }

  /** `append_eta` */
  method AppendEta(buf: seq<byte>, eta: Option<Duration>) returns (r: seq<byte>)
    ensures r == buf + EtaText(eta)
  {
    match eta {
      case None =>
        r := buf + [DASH, DASH, COLON, DASH, DASH];
      case Some(dur) =>
        var secs: u64 := dur.secs;
        if dur.nanos > 0 {
          secs := SatAdd(secs, 1);
        }
        assert secs == ShownSeconds(dur);
        if secs >= 3600 {
          var hours := secs / 3600;
          var minutes := (secs % 3600) / 60;
          var seconds := secs % 60;
          var r1 := PushNum(buf, hours);
          var r2 := PushTwoDigits(r1 + [COLON], minutes);
          r := PushTwoDigits(r2 + [COLON], seconds);
          HoursClock(buf, r1, r2, r, secs);
        } else {
          var minutes := secs / 60;
          var seconds := secs % 60;
          var r1 := PushTwoDigits(buf, minutes);
          r := PushTwoDigits(r1 + [COLON], seconds);
          MinutesClock(buf, r1, r, secs);
        }
    }
  }

  lemma HoursClock(buf: seq<byte>, r1: seq<byte>, r2: seq<byte>, r3: seq<byte>, secs: u64)
    requires secs >= 3600
    requires r1 == buf + Digits(secs / 3600)
    requires r2 == r1 + [COLON] + TwoDigits((secs % 3600) / 60)
    requires r3 == r2 + [COLON] + TwoDigits(secs % 60)
    ensures r3 == buf + Clock(secs)
  {
    assert r3 == buf + (Digits(secs / 3600) + [COLON] + TwoDigits((secs % 3600) / 60) + [COLON] + TwoDigits(secs % 60));
  }

  lemma MinutesClock(buf: seq<byte>, r1: seq<byte>, r2: seq<byte>, secs: u64)
    requires secs < 3600
    requires r1 == buf + TwoDigits(secs / 60)
    requires r2 == r1 + [COLON] + TwoDigits(secs % 60)
    ensures r2 == buf + Clock(secs)
  {
    assert r2 == buf + (TwoDigits(secs / 60) + [COLON] + TwoDigits(secs % 60));
  }
}
