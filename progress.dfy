/** `ProgressTracker`: the byte counters of the current pass and of the
    whole run, and the status line it renders after every recorded chunk.
    Timers are not modelled: the extrapolated remaining time (the
    floating-point part of `eta`) comes from an oracle indexed by the number
    of status lines rendered so far. */
module Progress {
  import opened Common
  import opened Format

  /** "\rПасс " in UTF-8. */
  const PASS_LABEL: seq<byte> := [0x0D, 0xD0, 0x9F, 0xD0, 0xB0, 0xD1, 0x81, 0xD1, 0x81, 0x20]
  const SLASH: byte := 0x2F
  /** " | Прогресс: " in UTF-8. */
  const PROGRESS_LABEL: seq<byte> :=
    [0x20, 0x7C, 0x20, 0xD0, 0x9F, 0xD1, 0x80, 0xD0, 0xBE, 0xD0, 0xB3, 0xD1, 0x80, 0xD0, 0xB5,
     0xD1, 0x81, 0xD1, 0x81, 0x3A, 0x20]
  /** "% | Осталось проход: " in UTF-8. */
  const PASS_ETA_LABEL: seq<byte> :=
    [0x25, 0x20, 0x7C, 0x20, 0xD0, 0x9E, 0xD1, 0x81, 0xD1, 0x82, 0xD0, 0xB0, 0xD0, 0xBB, 0xD0, 0xBE,
     0xD1, 0x81, 0xD1, 0x8C, 0x20, 0xD0, 0xBF, 0xD1, 0x80, 0xD0, 0xBE, 0xD1, 0x85, 0xD0, 0xBE,
     0xD0, 0xB4, 0x3A, 0x20]
  /** " | Осталось всего: " in UTF-8. */
  const TOTAL_ETA_LABEL: seq<byte> :=
    [0x20, 0x7C, 0x20, 0xD0, 0x9E, 0xD1, 0x81, 0xD1, 0x82, 0xD0, 0xB0, 0xD0, 0xBB, 0xD0, 0xBE,
     0xD1, 0x81, 0xD1, 0x8C, 0x20, 0xD0, 0xB2, 0xD1, 0x81, 0xD0, 0xB5, 0xD0, 0xB3, 0xD0, 0xBE,
     0x3A, 0x20]

  /** The integer guards of `eta`, tried in the source's order; only when
      none applies is the extrapolated estimate used. */
  function Eta(done: u64, total: u64, extrapolated: Option<Duration>): (r: Option<Duration>)
    ensures total == 0 ==> r.None?
    ensures total > 0 && done >= total ==> r == Some(Duration(0, 0))
    ensures total > 0 && done < total && done == 0 ==> r.None?
    ensures 0 < done < total ==> r == extrapolated
  {
    if total == 0 then None
    else if done >= total then Some(Duration(0, 0))
    else if done == 0 then None
    else extrapolated
  }

  /** A finished count shows "00:00"; nothing to go on shows "--:--". */
  lemma EtaTextAtEnds(done: u64, total: u64, extrapolated: Option<Duration>)
    ensures total > 0 && done >= total ==> EtaText(Eta(done, total, extrapolated)) == [48, 48, COLON, 48, 48]
    ensures (total == 0 || done == 0 < total) ==> EtaText(Eta(done, total, extrapolated)) == [DASH, DASH, COLON, DASH, DASH]
  {
  }

  /** `(done / size * 100).clamp(0, 100).round()` in exact arithmetic:
      the percentage rounded half away from zero, at most 100. */
  function Percent(done: u64, size: u64): (r: u64)
    requires size > 0
    ensures r <= 100
    ensures done >= size ==> r == 100
    ensures done < size ==> 2 * size * r <= 200 * done + size < 2 * size * (r + 1)
  {
    if done >= size then 100
    else
      RoundedPercentBounds(done, size);
      (200 * done + size) / (2 * size)
  }

  lemma RoundedPercentBounds(done: nat, size: nat)
    requires 0 < size && done < size
    ensures var q := (200 * done + size) / (2 * size);
      0 <= q <= 100 && 2 * size * q <= 200 * done + size < 2 * size * (q + 1)
  {
    var x, m := 200 * done + size, 2 * size;
    var q, rem := x / m, x % m;
    assert x == q * m + rem && 0 <= rem < m;
    assert q * m <= x < q * m + m;
    if q > 100 {
      MulMono(q - 100, m);
    }
  }

  /** The pass counter: "\rПасс " then current and total pass numbers. */
  function PassField(current: nat, passes: nat): seq<byte> {
    PASS_LABEL + Digits(current) + [SLASH] + Digits(passes)
  }

  /** " | Прогресс: " and the right-aligned percentage. */
  function PercentField(percent: u64): seq<byte> {
    PROGRESS_LABEL + PadLeft(Digits(Min(percent, 100)), 3)
  }

  /** A caption followed by an ETA clock. */
  function EtaField(caption: seq<byte>, eta: Option<Duration>): seq<byte> {
    caption + EtaText(eta)
  }

  /** The bytes of one status line. */
  function StatusLine(current: nat, passes: nat, percent: u64, passEta: Option<Duration>,
                      totalEta: Option<Duration>): seq<byte>
  {
    PassField(current, passes)
    + (PercentField(percent) + EtaField(PASS_ETA_LABEL, passEta) + EtaField(TOTAL_ETA_LABEL, totalEta))
  }

  /** The appends `print_status` makes to the cleared `line_buf`. */
  method RenderLine(current: u64, passes: u64, percent: u64, passEta: Option<Duration>,
                    totalEta: Option<Duration>) returns (line: seq<byte>)
    ensures line == StatusLine(current, passes, percent, passEta, totalEta)
  {
    line := AppendPassField(current, passes);
    line := AppendPercentField(line, percent);
    line := AppendLabelledEta(line, PASS_ETA_LABEL, passEta);
    line := AppendLabelledEta(line, TOTAL_ETA_LABEL, totalEta);
    Regroup(PassField(current, passes), PercentField(percent), EtaField(PASS_ETA_LABEL, passEta),
            EtaField(TOTAL_ETA_LABEL, totalEta));
  }

  method AppendPassField(current: u64, passes: u64) returns (r: seq<byte>)
    ensures r == PassField(current, passes)
  {
    r := PASS_LABEL;
    r := PushNum(r, current);
    r := r + [SLASH];
    r := PushNum(r, passes);
  }

  method AppendPercentField(buf: seq<byte>, percent: u64) returns (r: seq<byte>)
    ensures r == buf + PercentField(percent)
  {
    r := buf + PROGRESS_LABEL;
    r := PushPercent(r, percent);
  }

  method AppendLabelledEta(buf: seq<byte>, caption: seq<byte>, eta: Option<Duration>) returns (r: seq<byte>)
    ensures r == buf + EtaField(caption, eta)
  {
    r := buf + caption;
    r := AppendEta(r, eta);
  }

  class ProgressTracker {
    const deviceSize: u64
    const totalPasses: usize
    const totalTargetBytes: u64
    const quiet: bool
    /** Extrapolated remaining time of the pass (`true`) or of the run
        (`false`) when the n-th status line is rendered. */
    const estimate: (nat, bool) -> Option<Duration>
    var totalBytesDone: u64
    var passBytesDone: u64
    var currentPass: usize
    /** The last status line rendered (`line_buf`). */
    var lineBuf: seq<byte>
    /** Number of status lines rendered so far. */
    var printed: nat
    /** Every pass index given to `start_pass`, in order. */
    ghost var passLog: seq<nat>
    /** Every chunk size given to `record_chunk`, in order. */
    ghost var recorded: seq<nat>

    /** `ProgressTracker::new`: at least one pass is displayed, but the
        target is computed from the unclamped count. */
    constructor (passes: usize, deviceSize: u64, quiet: bool, estimate: (nat, bool) -> Option<Duration>)
      ensures this.deviceSize == deviceSize && this.quiet == quiet && this.estimate == estimate
      ensures totalPasses == Max(passes, 1)
      ensures totalTargetBytes == SatMul(deviceSize, passes)
      ensures totalBytesDone == 0 && passBytesDone == 0 && currentPass == 0
      ensures lineBuf == [] && printed == 0 && passLog == [] && recorded == []
    {
      this.deviceSize := deviceSize;
      totalPasses := if passes >= 1 then passes else 1;
      totalTargetBytes := SatMul(deviceSize, passes);
      this.quiet := quiet;
      this.estimate := estimate;
      totalBytesDone := 0;
      passBytesDone := 0;
      currentPass := 0;
      lineBuf := [];
      printed := 0;
      passLog := [];
      recorded := [];
    }

    /** `start_pass`: a new pass begins; the run total is kept. */
    method StartPass(passIndex: usize)
      modifies this`currentPass, this`passBytesDone, this`passLog
      ensures currentPass == passIndex && passBytesDone == 0
      ensures passLog == old(passLog) + [passIndex]
    {
      currentPass := passIndex;
      passBytesDone := 0;
      passLog := passLog + [passIndex];
    }

    /** `record_chunk`: both counters grow by `n`, saturating, and the
        status line is rendered. */
    method RecordChunk(n: u64)
      modifies this`passBytesDone, this`totalBytesDone, this`lineBuf, this`printed, this`recorded
      ensures passBytesDone == SatAdd(old(passBytesDone), n) && passBytesDone >= old(passBytesDone)
      ensures totalBytesDone == SatAdd(old(totalBytesDone), n) && totalBytesDone >= old(totalBytesDone)
      ensures recorded == old(recorded) + [n]
      ensures quiet || deviceSize == 0 ==> lineBuf == old(lineBuf) && printed == old(printed)
      ensures !quiet && deviceSize != 0 ==> printed == old(printed) + 1 && lineBuf == StatusLine(
        currentPass, totalPasses, Percent(passBytesDone, deviceSize),
        Eta(passBytesDone, deviceSize, estimate(old(printed), true)),
        Eta(totalBytesDone, totalTargetBytes, estimate(old(printed), false)))
    {
      passBytesDone := SatAdd(passBytesDone, n);
      totalBytesDone := SatAdd(totalBytesDone, n);
      recorded := recorded + [n];
      PrintStatus();
    }

    /** `print_status`: rebuilds `line_buf` unless quiet or the device is
        empty. Writing it to standard output is not modelled. */
    method PrintStatus()
      modifies this`lineBuf, this`printed
      ensures quiet || deviceSize == 0 ==> lineBuf == old(lineBuf) && printed == old(printed)
      ensures !quiet && deviceSize != 0 ==> printed == old(printed) + 1 && lineBuf == StatusLine(
        currentPass, totalPasses, Percent(passBytesDone, deviceSize),
        Eta(passBytesDone, deviceSize, estimate(old(printed), true)),
        Eta(totalBytesDone, totalTargetBytes, estimate(old(printed), false)))
    {
      if quiet || deviceSize == 0 {
        return;
      }
      var percent := Percent(passBytesDone, deviceSize);
      var passEta := Eta(passBytesDone, deviceSize, estimate(printed, true));
      var totalEta := Eta(totalBytesDone, totalTargetBytes, estimate(printed, false));
      var line := RenderLine(currentPass, totalPasses, percent, passEta, totalEta);
      lineBuf := line;
      printed := printed + 1;
    }
  }

  /** The pass counter of a status line reads back: after the label come
      the digits of the current pass, a slash, and the digits of the pass
      count. */
  lemma StatusLineCounters(current: nat, passes: nat, percent: u64, passEta: Option<Duration>,
                           totalEta: Option<Duration>)
    ensures var line := StatusLine(current, passes, percent, passEta, totalEta);
      var c := |Digits(current)|; var t := |Digits(passes)|;
      |line| >= 11 + c + t
      && line[..10] == PASS_LABEL
      && AllDigits(line[10..10 + c]) && DecimalValue(line[10..10 + c]) == current
      && line[10 + c] == SLASH
      && AllDigits(line[11 + c..11 + c + t]) && DecimalValue(line[11 + c..11 + c + t]) == passes
  {
    PassFieldReadsBack(current, passes,
      PercentField(percent) + EtaField(PASS_ETA_LABEL, passEta) + EtaField(TOTAL_ETA_LABEL, totalEta));
  }

  lemma PassFieldReadsBack(current: nat, passes: nat, rest: seq<byte>)
    ensures var line := PassField(current, passes) + rest;
      var c := |Digits(current)|; var t := |Digits(passes)|;
      |line| >= 11 + c + t
      && line[..10] == PASS_LABEL
      && AllDigits(line[10..10 + c]) && DecimalValue(line[10..10 + c]) == current
      && line[10 + c] == SLASH
      && AllDigits(line[11 + c..11 + c + t]) && DecimalValue(line[11 + c..11 + c + t]) == passes
  {
    var f := PassField(current, passes);
    var c := |Digits(current)|;
    var t := |Digits(passes)|;
    PassFieldParts(current, passes);
    PrefixSlice(f, rest, 0, 10);
    PrefixSlice(f, rest, 10, 10 + c);
    PrefixSlice(f, rest, 11 + c, 11 + c + t);
  }

  lemma Regroup(a: seq<byte>, b: seq<byte>, c: seq<byte>, d: seq<byte>)
    ensures a + b + c + d == a + (b + c + d)
  {
  }

  lemma PrefixSlice(f: seq<byte>, rest: seq<byte>, i: nat, j: nat)
    requires i <= j <= |f|
    ensures (f + rest)[i..j] == f[i..j]
  {
  }

  lemma PassFieldParts(current: nat, passes: nat)
    ensures var f := PassField(current, passes);
      var c := |Digits(current)|; var t := |Digits(passes)|;
      |f| == 11 + c + t && f[..10] == PASS_LABEL && f[10..10 + c] == Digits(current)
      && f[10 + c] == SLASH && f[11 + c..11 + c + t] == Digits(passes)
      && AllDigits(Digits(current)) && DecimalValue(Digits(current)) == current
      && AllDigits(Digits(passes)) && DecimalValue(Digits(passes)) == passes
  {
    DigitsRoundTrip(current);
    DigitsRoundTrip(passes);
    assert |PASS_LABEL| == 10;
    Layout(PASS_LABEL, Digits(current), SLASH, Digits(passes));
  }

  /** Where the pieces of `l + a + [s] + b` sit. */
  lemma Layout(l: seq<byte>, a: seq<byte>, s: byte, b: seq<byte>)
    ensures var f := l + a + [s] + b; var i := |l|; var j := |l| + |a|;
      |f| == j + 1 + |b| && f[..i] == l && f[i..j] == a && f[j] == s && f[j + 1..] == b
  {
    var f := l + a + [s] + b;
    assert f == l + (a + ([s] + b));
  }

  /** The line ends with the run's ETA, which reads back as the seconds
      shown for the estimate. */
  lemma StatusLineTotalEta(current: nat, passes: nat, percent: u64, passEta: Option<Duration>,
                           totalEta: Option<Duration>)
    ensures var line := StatusLine(current, passes, percent, passEta, totalEta);
      var e := EtaText(totalEta);
      |line| >= |e| && line[|line| - |e|..] == e
      && (totalEta.Some? ==> |e| >= 5 && ClockValue(e) == ShownSeconds(totalEta.value))
  {
    var f := PassField(current, passes);
    var p := PercentField(percent);
    var e1 := EtaField(PASS_ETA_LABEL, passEta);
    var e := EtaText(totalEta);
    RegroupLast(f, p, e1, TOTAL_ETA_LABEL, e);
    SuffixSlice(f + p + e1 + TOTAL_ETA_LABEL, e);
    if totalEta.Some? {
      ClockRoundTrip(ShownSeconds(totalEta.value));
    }
  }

  lemma RegroupLast(a: seq<byte>, b: seq<byte>, c: seq<byte>, d: seq<byte>, e: seq<byte>)
    ensures a + (b + c + (d + e)) == (a + b + c + d) + e
  {
  }

  lemma SuffixSlice(a: seq<byte>, b: seq<byte>)
    ensures (a + b)[|a + b| - |b|..] == b
  {
  }
}
