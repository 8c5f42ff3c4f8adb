/** `Config::parse`: the hand-written command-line parser. The arguments
    are those after the program name. The first plain argument is the
    device, the second the pass count; `--mode` and `--buf` take the next
    argument as their value; `--quiet` is a switch; `--help`/`-h` asks for
    the usage text. Every rejection ends the process with status 1 in the
    source and is a `Rejected` outcome here. */
module Args {
  import opened Common
  import opened Dev

  datatype Config = Config(devicePath: string, passes: usize, bufSize: Option<usize>,
                           mode: SyncMode, quiet: bool)

  /** Why the arguments were rejected. */
  datatype ArgError =
    | MissingModeValue
    | ModeUnavailable(value: string)
    | UnknownMode(value: string)
    | MissingBufValue
    | InvalidBuf(value: string)
    | ZeroBuf
    | UnknownFlag(flag: string)
    | InvalidPasses(value: string)
    | ZeroPasses
    | ExtraPositional(value: string)
    | MissingDevice

  /** A configuration to run with, a request for the usage text (exit
      status 0), or a rejection. */
  datatype Parsed = Run(cfg: Config) | Help | Rejected(error: ArgError)

  const DEFAULT_PASSES: usize := 8

  // ---------------------------------------------------------------------
  // `usize::from_str`

  predicate IsDecimal(c: char) { '0' <= c <= '9' }

  predicate AllDecimal(s: string) { forall i :: 0 <= i < |s| ==> IsDecimal(s[i]) }

  function DigitValue(c: char): nat
    requires IsDecimal(c)
  {
    (c as int) - ('0' as int)
  }

  /** The number a string of decimal digits denotes. */
  function Value(s: string): nat
    requires AllDecimal(s)
  {
    if s == [] then 0 else Value(s[..|s| - 1]) * 10 + DigitValue(s[|s| - 1])
  }

  /** What is left for the digits once one leading `+` is dropped. */
  function Unsigned(s: string): string {
    if |s| >= 1 && s[0] == '+' then s[1..] else s
  }

  /** Rust's `str::parse::<usize>` on a 64-bit target: one optional `+`,
      then at least one decimal digit, and a value that fits. A `-` is an
      invalid digit for an unsigned type. */
  function ParseUsize(s: string): (r: Option<usize>)
    ensures r.Some? <==> |Unsigned(s)| > 0 && AllDecimal(Unsigned(s)) && Value(Unsigned(s)) <= U64_MAX
    ensures r.Some? ==> r.value == Value(Unsigned(s))
    ensures |s| > 0 && s[0] == '-' ==> r.None?
    ensures s == [] ==> r.None?
  {
    var digits := Unsigned(s);
    if |digits| == 0 || !AllDecimal(digits) || Value(digits) > U64_MAX then None
    else Some(Value(digits))
  }

  /** `z` zeros. */
  function Zeros(z: nat): (r: string)
    ensures |r| == z && AllDecimal(r)
  {
    if z == 0 then [] else Zeros(z - 1) + ['0']
  }

  lemma {:induction false} ZerosValue(z: nat)
    ensures Value(Zeros(z)) == 0
  {
    if z > 0 {
      ZerosValue(z - 1);
      assert Zeros(z)[..z - 1] == Zeros(z - 1);
    }
  }

  /** Leading zeros do not change the value of a digit string. */
  lemma {:induction false} LeadingZerosValue(z: nat, s: string)
    requires AllDecimal(s)
    ensures AllDecimal(Zeros(z) + s) && Value(Zeros(z) + s) == Value(s)
    decreases |s|
  {
    var t := Zeros(z) + s;
    if s == [] {
      assert t == Zeros(z);
      ZerosValue(z);
    } else {
      LeadingZerosValue(z, s[..|s| - 1]);
      assert t[..|t| - 1] == Zeros(z) + s[..|s| - 1];
    }
  }

  /** A non-empty digit string, with or without one `+` in front, parses
      to its value exactly when that fits in 64 bits. */
  lemma ParseDigits(d: string)
    requires |d| > 0 && AllDecimal(d)
    ensures ParseUsize(d) == (if Value(d) <= U64_MAX then Some(Value(d)) else None)
    ensures ParseUsize("+" + d) == ParseUsize(d)
  {
    assert IsDecimal(d[0]);
    assert Unsigned("+" + d) == d;
  }

  /** The parse accepts leading zeros and one leading `+` around any
      printed number, and nothing that does not fit in 64 bits. */
  lemma ParseUsizeAccepts(n: nat, z: nat)
    ensures n <= U64_MAX ==> ParseUsize(Zeros(z) + DecimalText(n)) == Some(n)
    ensures ParseUsize("+" + Zeros(z) + DecimalText(n)) == ParseUsize(Zeros(z) + DecimalText(n))
    ensures n > U64_MAX ==> ParseUsize(Zeros(z) + DecimalText(n)) == None
  {
    var t := DecimalText(n);
    DecimalTextValue(n);
    LeadingZerosValue(z, t);
    var d := Zeros(z) + t;
    ParseDigits(d);
    assert "+" + Zeros(z) + t == "+" + d;
  }

  /** `+7` and `007` both parse to 7; a lone `+`, a doubled `+` and a
      sign in the middle do not parse. */
  lemma ParseUsizeExamples()
    ensures ParseUsize("+7") == Some(7) && ParseUsize("007") == Some(7)
    ensures ParseUsize("+") == None && ParseUsize("++7") == None && ParseUsize("7+") == None
    ensures ParseUsize("-7") == None
  {
    ParseUsizeAccepts(7, 0);
    ParseUsizeAccepts(7, 2);
    assert "+" + Zeros(0) + DecimalText(7) == "+7";
    assert Zeros(2) + DecimalText(7) == "007";
    assert !IsDecimal(Unsigned("++7")[0]);
    assert !IsDecimal(Unsigned("7+")[1]);
  }

  /** Decimal digits of `n`, most significant first. */
  function DecimalText(n: nat): string
    decreases n
  {
    if n < 10 then [('0' as int + n) as char] else DecimalText(n / 10) + [('0' as int + n % 10) as char]
  }

  lemma {:induction false} DecimalTextValue(n: nat)
    ensures |DecimalText(n)| >= 1 && AllDecimal(DecimalText(n)) && Value(DecimalText(n)) == n
    ensures DecimalText(n)[0] != '+' && DecimalText(n)[0] != '-'
  {
    if n >= 10 {
      DecimalTextValue(n / 10);
      var t := DecimalText(n);
      assert t[..|t| - 1] == DecimalText(n / 10);
    }
  }

  /** Decimal text is a plain argument, not a flag. */
  lemma PlainDecimal(n: nat)
    ensures !StartsWithDashes(DecimalText(n)) && DecimalText(n) != "-h"
    ensures DecimalText(n) != "--help" && DecimalText(n) != "--mode" && DecimalText(n) != "--buf" && DecimalText(n) != "--quiet"
  {
    DecimalTextValue(n);
    var t := DecimalText(n);
    assert IsDecimal(t[0]);
    if |t| >= 2 {
      assert t[..2][0] == t[0];
    }
  }

  /** Printing a `usize` and parsing it back gives the same number. */
  lemma ParseUsizeRoundTrip(n: usize)
    ensures ParseUsize(DecimalText(n)) == Some(n)
  {
    DecimalTextValue(n);
  }

  // ---------------------------------------------------------------------
  // The parser

  predicate StartsWithDashes(s: string) { |s| >= 2 && s[..2] == "--" }

  /** The parser's own flags all start with two dashes. */
  lemma FlagsHaveDashes(s: string)
    requires !StartsWithDashes(s)
    ensures s != "--help" && s != "--mode" && s != "--buf" && s != "--quiet"
  {
    if |s| >= 2 {
      assert "--help"[..2] == "--mode"[..2] == "--buf"[..2] == "--quiet"[..2] == "--";
    }
  }

  /** The value of `--mode`: `durable` needs the `durable` feature and
      `direct` needs the `direct` feature on Linux. */
  function ModeFor(value: string, b: Build): (r: Option<SyncMode>)
    ensures r.Some? ==> ModeAvailable(r.value, b) && (r.value == Direct ==> b.platform == Linux)
    ensures r.Some? ==> Label(r.value) == value
    ensures r.None? <==> (value != "fast" && (value == "durable" ==> !b.durable)
      && (value == "direct" ==> !(b.direct && b.platform == Linux)))
  {
    if value == "fast" then Some(Fast)
    else if value == "durable" then
      (if b.durable then Some(Durable) else None)
    else if value == "direct" then
      (if b.direct && b.platform == Linux then Some(Direct) else None)
    else None
  }

  /** The error for a `--mode` value `ModeFor` refused. */
  function ModeError(value: string): ArgError {
    if value == "durable" || value == "direct" then ModeUnavailable(value) else UnknownMode(value)
  }

  /** The five locals the loop updates. */
  datatype Locals = Locals(device: Option<string>, passes: Option<usize>, bufSize: Option<usize>,
                           mode: SyncMode, quiet: bool)

  const INITIAL: Locals := Locals(None, None, None, Fast, false)

  /** After the loop: the device is required, the pass count defaults. */
  function Finish(st: Locals): Parsed {
    match st.device
    case None => Rejected(MissingDevice)
    case Some(d) => Run(Config(d, st.passes.GetOr(DEFAULT_PASSES), st.bufSize, st.mode, st.quiet))
  }

  /** One turn of the loop: either the outcome is decided, or the loop
      goes on with fewer arguments and new locals. */
  datatype StepResult = Done(outcome: Parsed) | Continue(rest: seq<string>, st: Locals)

  function Step(rest: seq<string>, st: Locals, b: Build): (r: StepResult)
    requires rest != []
    ensures r.Continue? ==> |r.rest| < |rest|
    ensures r.Done? ==> !r.outcome.Run?
  {
    var a := rest[0];
    if a == "--help" || a == "-h" then Done(Help)
    else if a == "--mode" then
      if |rest| < 2 then Done(Rejected(MissingModeValue))
      else match ModeFor(rest[1], b)
        case None => Done(Rejected(ModeError(rest[1])))
        case Some(m) => Continue(rest[2..], st.(mode := m))
    else if a == "--buf" then
      if |rest| < 2 then Done(Rejected(MissingBufValue))
      else match ParseUsize(rest[1])
        case None => Done(Rejected(InvalidBuf(rest[1])))
        case Some(n) =>
          if n == 0 then Done(Rejected(ZeroBuf)) else Continue(rest[2..], st.(bufSize := Some(n)))
    else if a == "--quiet" then Continue(rest[1..], st.(quiet := true))
    else if StartsWithDashes(a) then Done(Rejected(UnknownFlag(a)))
    else if st.device.None? then Continue(rest[1..], st.(device := Some(a)))
    else if st.passes.None? then
      match ParseUsize(a)
      case None => Done(Rejected(InvalidPasses(a)))
      case Some(p) => if p == 0 then Done(Rejected(ZeroPasses)) else Continue(rest[1..], st.(passes := Some(p)))
    else Done(Rejected(ExtraPositional(a)))
  }

  /** What the loop makes of the arguments still to come, given the
      locals so far. */
  function ParseFrom(rest: seq<string>, st: Locals, b: Build): Parsed
    decreases |rest|
  {
    if rest == [] then Finish(st)
    else match Step(rest, st, b)
      case Done(p) => p
      case Continue(rest', st') => ParseFrom(rest', st', b)
  }

  function ParseArgs(args: seq<string>, b: Build): Parsed {
    ParseFrom(args, INITIAL, b)
  }

  /** `Config::parse`: one `while let` over the arguments, updating the
      locals; `--help` and every error leave the loop at once. */
  method Parse(args: seq<string>, b: Build) returns (r: Parsed)
    ensures r == ParseArgs(args, b)
  {
    var devicePath: Option<string> := None;
    var passes: Option<usize> := None;
    var bufSize: Option<usize> := None;
    var mode: SyncMode := Fast;
    var quiet := false;
    var i := 0;
    while i < |args|
      invariant 0 <= i <= |args|
      invariant ParseFrom(args[i..], Locals(devicePath, passes, bufSize, mode, quiet), b) == ParseArgs(args, b)
      decreases |args| - i
    {
      var arg := args[i];
      i := i + 1;
      if arg == "--help" || arg == "-h" {
        return Help;
      } else if arg == "--mode" {
        if i >= |args| {
          return Rejected(MissingModeValue);
        }
        var value := args[i];
        i := i + 1;
        var m := ModeFor(value, b);
        if m.None? {
          return Rejected(ModeError(value));
        }
        mode := m.value;
        assert args[i - 2..][2..] == args[i..];
      } else if arg == "--buf" {
        if i >= |args| {
          return Rejected(MissingBufValue);
        }
        var value := args[i];
        i := i + 1;
        var parsed := ParseUsize(value);
        if parsed.None? {
          return Rejected(InvalidBuf(value));
        }
        if parsed.value == 0 {
          return Rejected(ZeroBuf);
        }
        bufSize := parsed;
        assert args[i - 2..][2..] == args[i..];
      } else if arg == "--quiet" {
        quiet := true;
        assert args[i - 1..][1..] == args[i..];
      } else if StartsWithDashes(arg) {
        return Rejected(UnknownFlag(arg));
      } else if devicePath.None? {
        devicePath := Some(arg);
        assert args[i - 1..][1..] == args[i..];
      } else if passes.None? {
        var p := ParseUsize(arg);
        if p.None? {
          return Rejected(InvalidPasses(arg));
        }
        if p.value == 0 {
          return Rejected(ZeroPasses);
        }
        passes := p;
        assert args[i - 1..][1..] == args[i..];
      } else {
        return Rejected(ExtraPositional(arg));
      }
    }
    var st := Locals(devicePath, passes, bufSize, mode, quiet);
    r := Finish(st);
  }

  // ---------------------------------------------------------------------
  // Properties

  /** What the loop's locals always satisfy: a recorded pass count or
      buffer size is positive, the mode exists in the build, and a device
      is a plain argument. */
  predicate LocalsOk(st: Locals, b: Build) {
    (st.passes.Some? ==> st.passes.value >= 1)
    && (st.bufSize.Some? ==> st.bufSize.value >= 1)
    && ModeAvailable(st.mode, b) && (st.mode == Direct ==> b.platform == Linux)
    && (st.device.Some? ==> !StartsWithDashes(st.device.value) && st.device.value != "-h")
  }

  /** Every configuration the parser accepts is one the program can run:
      at least one pass, a positive buffer size if any, a mode the build
      has, and a device path that is not a flag. */
  lemma {:induction false} ParseFromSound(rest: seq<string>, st: Locals, b: Build)
    requires LocalsOk(st, b)
    ensures ParseFrom(rest, st, b).Run? ==> var c := ParseFrom(rest, st, b).cfg;
      c.passes >= 1 && (c.bufSize.Some? ==> c.bufSize.value >= 1)
      && ModeAvailable(c.mode, b) && (c.mode == Direct ==> b.platform == Linux)
      && !StartsWithDashes(c.devicePath) && c.devicePath != "-h"
    decreases |rest|
  {
    if rest != [] {
      StepKeepsLocalsOk(rest, st, b);
      var r := Step(rest, st, b);
      if r.Continue? {
        ParseFromSound(r.rest, r.st, b);
      }
    }
  }

  /** One turn of the loop keeps `LocalsOk`. */
  lemma StepKeepsLocalsOk(rest: seq<string>, st: Locals, b: Build)
    requires rest != [] && LocalsOk(st, b)
    ensures Step(rest, st, b).Continue? ==> LocalsOk(Step(rest, st, b).st, b)
  {
    var a := rest[0];
    if !StartsWithDashes(a) && a != "-h" {
      FlagsHaveDashes(a);
    }
  }

  lemma ParseSound(args: seq<string>, b: Build)
    ensures ParseArgs(args, b).Run? ==> var c := ParseArgs(args, b).cfg;
      c.passes >= 1 && (c.bufSize.Some? ==> c.bufSize.value >= 1)
      && ModeAvailable(c.mode, b) && (c.mode == Direct ==> b.platform == Linux)
      && !StartsWithDashes(c.devicePath) && c.devicePath != "-h"
  {
    ParseFromSound(args, INITIAL, b);
  }

  /** A plain argument: neither a flag nor `-h`. */
  predicate Plain(s: string) { !StartsWithDashes(s) && s != "-h" }

  // One turn of the loop for each kind of argument.

  lemma DeviceStep(a: string, rest: seq<string>, st: Locals, b: Build)
    requires Plain(a) && st.device.None?
    ensures ParseFrom([a] + rest, st, b) == ParseFrom(rest, st.(device := Some(a)), b)
  {
    FlagsHaveDashes(a);
    assert ([a] + rest)[1..] == rest;
  }

  lemma PassesStep(n: usize, rest: seq<string>, st: Locals, b: Build)
    requires n >= 1 && st.device.Some? && st.passes.None?
    ensures ParseFrom([DecimalText(n)] + rest, st, b) == ParseFrom(rest, st.(passes := Some(n)), b)
  {
    PlainDecimal(n);
    ParseUsizeRoundTrip(n);
    assert ([DecimalText(n)] + rest)[1..] == rest;
  }

  lemma ModeStep(value: string, rest: seq<string>, st: Locals, b: Build)
    requires ModeFor(value, b).Some?
    ensures ParseFrom(["--mode", value] + rest, st, b) == ParseFrom(rest, st.(mode := ModeFor(value, b).value), b)
  {
    assert (["--mode", value] + rest)[2..] == rest;
  }

  lemma BufStep(n: usize, rest: seq<string>, st: Locals, b: Build)
    requires n >= 1
    ensures ParseFrom(["--buf", DecimalText(n)] + rest, st, b) == ParseFrom(rest, st.(bufSize := Some(n)), b)
  {
    ParseUsizeRoundTrip(n);
    assert (["--buf", DecimalText(n)] + rest)[2..] == rest;
  }

  lemma QuietStep(rest: seq<string>, st: Locals, b: Build)
    ensures ParseFrom(["--quiet"] + rest, st, b) == ParseFrom(rest, st.(quiet := true), b)
  {
    assert (["--quiet"] + rest)[1..] == rest;
  }

  /** The arguments that ask for `cfg`: device, pass count, mode, then the
      buffer size and `--quiet` when they are set. */
  function Render(cfg: Config): seq<string> {
    [cfg.devicePath, DecimalText(cfg.passes), "--mode", Label(cfg.mode)]
    + (match cfg.bufSize case None => [] case Some(n) => ["--buf", DecimalText(n)])
    + (if cfg.quiet then ["--quiet"] else [])
  }

  /** Every runnable configuration is reached by its own command line:
      parsing what `Render` writes gives the configuration back. */
  lemma RenderParses(cfg: Config, b: Build)
    requires Plain(cfg.devicePath) && cfg.passes >= 1
    requires cfg.bufSize.Some? ==> cfg.bufSize.value >= 1
    requires ModeAvailable(cfg.mode, b) && (cfg.mode == Direct ==> b.platform == Linux)
    ensures ParseArgs(Render(cfg), b) == Run(cfg)
  {
    var bufArgs: seq<string> := match cfg.bufSize case None => [] case Some(n) => ["--buf", DecimalText(n)];
    var quietArgs: seq<string> := if cfg.quiet then ["--quiet"] else [];
    var rest := bufArgs + quietArgs;
    var args := Render(cfg);
    assert args == [cfg.devicePath] + ([DecimalText(cfg.passes)] + (["--mode", Label(cfg.mode)] + rest));
    var st1 := INITIAL.(device := Some(cfg.devicePath));
    DeviceStep(cfg.devicePath, [DecimalText(cfg.passes)] + (["--mode", Label(cfg.mode)] + rest), INITIAL, b);
    var st2 := st1.(passes := Some(cfg.passes));
    PassesStep(cfg.passes, ["--mode", Label(cfg.mode)] + rest, st1, b);
    assert ModeFor(Label(cfg.mode), b) == Some(cfg.mode);
    var st3 := st2.(mode := cfg.mode);
    ModeStep(Label(cfg.mode), rest, st2, b);
    var st4 := st3.(bufSize := cfg.bufSize);
    match cfg.bufSize {
      case None =>
        assert rest == quietArgs;
      case Some(n) =>
        BufStep(n, quietArgs, st3, b);
    }
    assert ParseArgs(args, b) == ParseFrom(quietArgs, st4, b);
    if cfg.quiet {
      QuietStep([], st4, b);
      assert ["--quiet"] + [] == quietArgs;
    }
  }

  /** A lone device argument gets the defaults: eight passes, no buffer
      size, Fast mode, progress shown. */
  lemma Defaults(device: string, b: Build)
    requires Plain(device)
    ensures ParseArgs([device], b) == Run(Config(device, 8, None, Fast, false))
  {
    DeviceStep(device, [], INITIAL, b);
    assert [device] + [] == [device];
  }

  /** A third plain argument is rejected. */
  lemma ThirdPositional(device: string, passes: usize, extra: string, b: Build)
    requires Plain(device) && Plain(extra) && passes >= 1
    ensures ParseArgs([device, DecimalText(passes), extra], b) == Rejected(ExtraPositional(extra))
  {
    FlagsHaveDashes(extra);
    var st1 := INITIAL.(device := Some(device));
    DeviceStep(device, [DecimalText(passes), extra], INITIAL, b);
    PassesStep(passes, [extra], st1, b);
    assert [device] + [DecimalText(passes), extra] == [device, DecimalText(passes), extra];
    assert [DecimalText(passes)] + [extra] == [DecimalText(passes), extra];
  }

  /** The locals after the loop has gone through all of `pre` without
      deciding, or `None` when it decides inside `pre` or needs a value
      past its end. */
  function Through(pre: seq<string>, st: Locals, b: Build): Option<Locals>
    decreases |pre|
  {
    if pre == [] then Some(st)
    else match Step(pre, st, b)
      case Done(_) => None
      case Continue(rest', st') => Through(rest', st', b)
  }

  /** A turn that goes on inside `pre` goes on the same way whatever
      follows `pre`. */
  lemma StepAppend(pre: seq<string>, more: seq<string>, st: Locals, b: Build)
    requires pre != [] && Step(pre, st, b).Continue?
    ensures Step(pre + more, st, b) == Continue(Step(pre, st, b).rest + more, Step(pre, st, b).st)
  {
    assert (pre + more)[0] == pre[0];
    assert (pre + more)[1..] == pre[1..] + more;
    if |pre| >= 2 {
      assert (pre + more)[1] == pre[1];
      assert (pre + more)[2..] == pre[2..] + more;
    }
  }

  /** Arguments the loop goes through without deciding only set the
      locals the rest of the arguments start from. */
  lemma {:induction false} ThroughAppend(pre: seq<string>, rest: seq<string>, st: Locals, b: Build)
    requires Through(pre, st, b).Some?
    ensures ParseFrom(pre + rest, st, b) == ParseFrom(rest, Through(pre, st, b).value, b)
    decreases |pre|
  {
    if pre != [] {
      var step := Step(pre, st, b);
      StepAppend(pre, rest, st, b);
      ThroughAppend(step.rest, rest, step.st, b);
    } else {
      assert pre + rest == rest;
    }
  }

  /** `--help` or `-h` wins over whatever follows it, once the arguments
      before it have been taken without an error. */
  lemma HelpFirst(pre: seq<string>, flag: string, rest: seq<string>, b: Build)
    requires flag == "--help" || flag == "-h"
    requires Through(pre, INITIAL, b).Some?
    ensures ParseArgs(pre + [flag] + rest, b) == Help
  {
    ThroughAppend(pre, [flag] + rest, INITIAL, b);
    assert pre + [flag] + rest == pre + ([flag] + rest);
  }

  /** `/dev/sda --help` and `-h` alone both ask for the usage text. */
  lemma HelpExamples(b: Build)
    ensures ParseArgs(["/dev/sda", "--help"], b) == Help
    ensures ParseArgs(["-h"], b) == Help
  {
    assert Plain("/dev/sda") by { assert "/dev/sda"[1] != "--"[1]; }
    FlagsHaveDashes("/dev/sda");
    assert Through(["/dev/sda"], INITIAL, b) == Some(INITIAL.(device := Some("/dev/sda")));
    HelpFirst(["/dev/sda"], "--help", [], b);
    assert ["/dev/sda"] + ["--help"] + [] == ["/dev/sda", "--help"];
    HelpFirst([], "-h", [], b);
    assert [] + ["-h"] + [] == ["-h"];
  }

  /** Without any plain argument there is no device. */
  lemma NoDevice(b: Build)
    ensures ParseArgs([], b) == Rejected(MissingDevice)
    ensures ParseArgs(["--quiet"], b) == Rejected(MissingDevice)
  {
    QuietStep([], INITIAL, b);
    assert ["--quiet"] + [] == ["--quiet"];
  }

  /** An unknown flag is rejected as such. */
  lemma UnknownFlagRejected(flag: string, rest: seq<string>, b: Build)
    requires StartsWithDashes(flag) && flag != "--help" && flag != "--mode" && flag != "--buf" && flag != "--quiet"
    ensures ParseArgs([flag] + rest, b) == Rejected(UnknownFlag(flag))
  {
    assert ([flag] + rest)[0] == flag;
    assert flag != "-h" by {
      assert "-h"[1] != "--"[1];
    }
  }

  /** `--mode` and `--buf` as the last argument lack their value. */
  lemma MissingValues(device: string, b: Build)
    requires Plain(device)
    ensures ParseArgs([device, "--mode"], b) == Rejected(MissingModeValue)
    ensures ParseArgs([device, "--buf"], b) == Rejected(MissingBufValue)
  {
    DeviceStep(device, ["--mode"], INITIAL, b);
    DeviceStep(device, ["--buf"], INITIAL, b);
    assert [device] + ["--mode"] == [device, "--mode"];
    assert [device] + ["--buf"] == [device, "--buf"];
  }

  /** A plain argument that is not a decimal number. */
  lemma PlainLiterals()
    ensures Plain("/tmp/fake_device") && Plain("/dev/sda") && Plain("/dev/null") && Plain("notanumber")
  {
    assert "/tmp/fake_device"[..2] == "/t";
    assert "/dev/sda"[..2] == "/d";
    assert "/dev/null"[..2] == "/d";
    assert "notanumber"[..2] == "no";
  }

  /** The two parser cases of the unit tests: a device and a pass count,
      and the same with a mode and a buffer size. */
  lemma ParseMinimal(b: Build)
    ensures ParseArgs(["/tmp/fake_device", "2"], b) == Run(Config("/tmp/fake_device", 2, None, Fast, false))
  {
    PlainLiterals();
    assert DecimalText(2) == "2";
    DeviceStep("/tmp/fake_device", ["2"], INITIAL, b);
    PassesStep(2, [], INITIAL.(device := Some("/tmp/fake_device")), b);
    assert ["/tmp/fake_device"] + ["2"] == ["/tmp/fake_device", "2"];
    assert ["2"] + [] == ["2"];
  }

  lemma ParseWithFlags(b: Build)
    requires b.durable
    ensures ParseArgs(["/dev/sda", "3", "--mode", "durable", "--buf", "65536"], b)
      == Run(Config("/dev/sda", 3, Some(65536), Durable, false))
  {
    PlainLiterals();
    var args := ["/dev/sda", "3", "--mode", "durable", "--buf", "65536"];
    var st1 := INITIAL.(device := Some("/dev/sda"));
    var st2 := st1.(passes := Some(3));
    var st3 := st2.(mode := Durable);
    assert DecimalText(3) == "3";
    assert DecimalText(65536) == "65536";
    assert args == ["/dev/sda"] + (["3"] + (["--mode", "durable"] + (["--buf", "65536"] + [])));
    DeviceStep("/dev/sda", ["3"] + (["--mode", "durable"] + (["--buf", "65536"] + [])), INITIAL, b);
    PassesStep(3, ["--mode", "durable"] + (["--buf", "65536"] + []), st1, b);
    ModeStep("durable", ["--buf", "65536"] + [], st2, b);
    BufStep(65536, [], st3, b);
  }

  /** The command-line cases that must fail: a non-numeric or zero pass
      count, an unknown mode, a negative buffer size. */
  lemma RejectionExamples(b: Build)
    ensures ParseArgs(["/dev/null", "notanumber"], b) == Rejected(InvalidPasses("notanumber"))
    ensures ParseArgs(["/dev/null", "0"], b) == Rejected(ZeroPasses)
    ensures ParseArgs(["/dev/null", "1", "--mode", "wat"], b) == Rejected(UnknownMode("wat"))
    ensures ParseArgs(["/dev/null", "1", "--buf", "-1"], b) == Rejected(InvalidBuf("-1"))
  {
    PlainLiterals();
    var st1 := INITIAL.(device := Some("/dev/null"));
    DeviceStep("/dev/null", ["notanumber"], INITIAL, b);
    assert ["/dev/null"] + ["notanumber"] == ["/dev/null", "notanumber"];
    FlagsHaveDashes("notanumber");
    assert !IsDecimal("notanumber"[0]);
    DeviceStep("/dev/null", ["0"], INITIAL, b);
    assert ["/dev/null"] + ["0"] == ["/dev/null", "0"];
    assert DecimalText(0) == "0";
    PlainDecimal(0);
    ParseUsizeRoundTrip(0);
    assert DecimalText(1) == "1";
    DeviceStep("/dev/null", ["1", "--mode", "wat"], INITIAL, b);
    PassesStep(1, ["--mode", "wat"], st1, b);
    assert ["/dev/null"] + ["1", "--mode", "wat"] == ["/dev/null", "1", "--mode", "wat"];
    assert ["1"] + ["--mode", "wat"] == ["1", "--mode", "wat"];
    DeviceStep("/dev/null", ["1", "--buf", "-1"], INITIAL, b);
    PassesStep(1, ["--buf", "-1"], st1, b);
    assert ["/dev/null"] + ["1", "--buf", "-1"] == ["/dev/null", "1", "--buf", "-1"];
    assert ["1"] + ["--buf", "-1"] == ["1", "--buf", "-1"];
  }
}
