/**
 * The C tree's command-line parser (`mv_read_config` in `source/config.c`)
 * and its defaults (`source/config.h`). The parser is strict: an unknown
 * token or a missing value ends the program with status 1, `-h` with
 * status 0. `atoi` and `sscanf("%x")` are library calls and are passed in.
 */
module CConfig {
  import opened Wrappers
  import opened Bytes
  import CColor

  datatype Config = Config(
    windowWidth: u32, windowHeight: u32, fullscreen: int,
    resolutionWidth: u32, resolutionHeight: u32,
    primary: CColor.Color, secondary: CColor.Color,
    radius: real, dimFactor: real,
    instructionPerFrame: u32, frameRate: u32,
    pipe: string, legacy: int, lineWidth: real)

  /** `exit(status)` before the configuration is returned. */
  datatype Exit = Exit(status: int)

  /** The library parsers the options rely on. */
  datatype Parsers = Parsers(atoi: string -> i32, scanHex: string -> u32)

  /** `DEFAULT_INSTRUCTION_PER_FRAME` and `DEFAULT_FRAME_RATE` of `config.h`. */
  const DefaultInstructionPerFrame: u32 := 1024
  const DefaultFrameRate: u32 := 60

  /**
   * The designated initializer of `mv_read_config`: window 640x480,
   * resolution 320x180, the two palette colours, line width 2 and the pipe
   * path; every member it does not name is zero.
   */
  function Default(): (c: Config)
    ensures c.windowWidth == 640 && c.windowHeight == 480 && c.fullscreen == 0
    ensures c.resolutionWidth == 320 && c.resolutionHeight == 180
    ensures c.primary == CColor.Create(40, 40, 40) && c.secondary == CColor.Create(51, 255, 100)
    ensures c.radius == 0.0 && c.dimFactor == 0.0 && c.instructionPerFrame == 0 && c.frameRate == 0
    ensures c.pipe == "/tmp/mv_pipe" && c.legacy == 0 && c.lineWidth == 2.0
  {
    Config(640, 480, 0, 320, 180, CColor.Create(40, 40, 40), CColor.Create(51, 255, 100),
           0.0, 0.0, 0, 0, "/tmp/mv_pipe", 0, 2.0)
  }

  /** An `int` stored into a `uint32_t`: reduced modulo 2^32. */
  function ToU32(v: int): (w: u32)
    ensures 0 <= v < 0x1_0000_0000 ==> w == v
    ensures v < 0 && v >= -0x1_0000_0000 ==> w == v + 0x1_0000_0000
  {
    v % 0x1_0000_0000
  }

  predicate IsHelp(t: string)
  {
    t == "-h" || t == "--help"
  }

  /** The tokens the parser accepts, help included. */
  predicate Known(t: string)
  {
    t in {"-w", "--window", "-r", "--resolution", "-p", "--primary", "-s", "--secondary",
          "-l", "--line-width", "-i", "--pipe", "-le", "--legacy", "-h", "--help"}
  }

  /** How many values follow an option. */
  function Arity(t: string): (n: nat)
    ensures n <= 2
  {
    if t in {"-w", "--window", "-r", "--resolution"} then 2
    else if t in {"-p", "--primary", "-s", "--secondary", "-l", "--line-width", "-i", "--pipe"} then 1
    else 0
  }

  /** The effect of one option with its values on the configuration. */
  function Apply(t: string, values: seq<string>, c: Config, p: Parsers): Config
    requires |values| == Arity(t)
  {
    if t == "-w" || t == "--window" then
      c.(windowWidth := ToU32(p.atoi(values[0])), windowHeight := ToU32(p.atoi(values[1])))
    else if t == "-r" || t == "--resolution" then
      c.(resolutionWidth := ToU32(p.atoi(values[0])), resolutionHeight := ToU32(p.atoi(values[1])))
    else if t == "-p" || t == "--primary" then
      c.(primary := CColor.FromHexStr(values[0], p.scanHex))
    else if t == "-s" || t == "--secondary" then
      c.(secondary := CColor.FromHexStr(values[0], p.scanHex))
    else if t == "-l" || t == "--line-width" then
      c.(lineWidth := p.atoi(values[0]) as real)
    else if t == "-i" || t == "--pipe" then
      c.(pipe := values[0])
    else if t == "-le" || t == "--legacy" then
      c.(legacy := 1)
    else c
  }

  /** The option loop over `argv[i..]`, one option and its values at a time. */
  function Options(tokens: seq<string>, c: Config, p: Parsers): Result<Config, Exit>
    decreases |tokens|
  {
    if tokens == [] then Ok(c)
    else
      var t := tokens[0];
      if IsHelp(t) then Err(Exit(0))
      else if !Known(t) then Err(Exit(1))
      else if |tokens| <= Arity(t) then Err(Exit(1))
      else Options(tokens[1 + Arity(t)..], Apply(t, tokens[1..1 + Arity(t)], c, p), p)
  }

  /** `mv_read_config(argc, argv)`: options start after the program name. */
  function Read(argv: seq<string>, p: Parsers): Result<Config, Exit>
  {
    if |argv| <= 1 then Ok(Default()) else Options(argv[1..], Default(), p)
  }

  /** A command line with no options gives the defaults. */
  lemma ReadNoOptions(program: string, p: Parsers)
    ensures Read([program], p) == Ok(Default())
  {
  }

  /** The exit statuses: 0 only for help, 1 for every error. */
  lemma {:induction false} ExitStatus(tokens: seq<string>, c: Config, p: Parsers)
    ensures Options(tokens, c, p).Err? ==> Options(tokens, c, p).error.status in {0, 1}
    ensures Options(tokens, c, p) == Err(Exit(0)) <==> exists k :: 0 <= k < |tokens| && IsHelp(tokens[k]) && HelpReached(tokens, k, c, p)
    decreases |tokens|
  {
    if tokens != [] && !IsHelp(tokens[0]) && Known(tokens[0]) && |tokens| > Arity(tokens[0]) {
      var n := 1 + Arity(tokens[0]);
      var c' := Apply(tokens[0], tokens[1..n], c, p);
      ExitStatus(tokens[n..], c', p);
      forall k | 0 <= k < |tokens|
        ensures IsHelp(tokens[k]) && HelpReached(tokens, k, c, p) <==>
          k >= n && IsHelp(tokens[n..][k - n]) && HelpReached(tokens[n..], k - n, c', p)
      {
      }
      if Options(tokens, c, p) == Err(Exit(0)) {
        var k :| 0 <= k < |tokens[n..]| && IsHelp(tokens[n..][k]) && HelpReached(tokens[n..], k, c', p);
        assert IsHelp(tokens[k + n]) && HelpReached(tokens, k + n, c, p);
      }
    } else if tokens != [] && IsHelp(tokens[0]) {
      assert HelpReached(tokens, 0, c, p);
    }
  }

  /** The parse reaches position k of the tokens as the start of an option, having accepted everything before it. */
  predicate HelpReached(tokens: seq<string>, k: nat, c: Config, p: Parsers)
    decreases |tokens|
  {
    if tokens == [] then false
    else if k == 0 then true
    else
      var t := tokens[0];
      !IsHelp(t) && Known(t) && |tokens| > Arity(t) && k >= 1 + Arity(t)
      && HelpReached(tokens[1 + Arity(t)..], k - 1 - Arity(t), Apply(t, tokens[1..1 + Arity(t)], c, p), p)
  }

  /** Parsing more tokens after an accepted prefix continues from the prefix's configuration. */
  lemma {:induction false} OptionsAppend(tokens: seq<string>, rest: seq<string>, c: Config, p: Parsers)
    requires Options(tokens, c, p).Ok?
    ensures Options(tokens + rest, c, p) == Options(rest, Options(tokens, c, p).value, p)
    decreases |tokens|
  {
    if tokens != [] {
      var t := tokens[0];
      var n := 1 + Arity(t);
      var c' := Apply(t, tokens[1..n], c, p);
      assert !IsHelp(t) && Known(t) && |tokens| >= n;
      SplitAfter(tokens, rest, n);
      assert Options(tokens + rest, c, p) == Options(tokens[n..] + rest, c', p);
      OptionsAppend(tokens[n..], rest, c', p);
    } else {
      assert tokens + rest == rest;
    }
  }

  lemma SplitAfter(tokens: seq<string>, rest: seq<string>, n: nat)
    requires 1 <= n <= |tokens|
    ensures (tokens + rest)[0] == tokens[0]
    ensures (tokens + rest)[1..n] == tokens[1..n]
    ensures (tokens + rest)[n..] == tokens[n..] + rest
  {
  }

  /** An option with too few values left is fatal with status 1, after any accepted prefix. */
  lemma MissingValue(prefix: seq<string>, t: string, values: seq<string>, c: Config, p: Parsers)
    requires Options(prefix, c, p).Ok?
    requires Known(t) && !IsHelp(t) && |values| < Arity(t)
    ensures Options(prefix + [t] + values, c, p) == Err(Exit(1))
  {
    OptionsAppend(prefix, [t] + values, c, p);
    assert prefix + [t] + values == prefix + ([t] + values);
  }

  /** An unrecognised token is fatal with status 1, whatever follows it. */
  lemma UnknownIsFatal(prefix: seq<string>, t: string, rest: seq<string>, c: Config, p: Parsers)
    requires Options(prefix, c, p).Ok?
    requires !Known(t)
    ensures Options(prefix + [t] + rest, c, p) == Err(Exit(1))
  {
    OptionsAppend(prefix, [t] + rest, c, p);
    assert prefix + [t] + rest == prefix + ([t] + rest);
  }

  /** A later occurrence of an option overwrites the values an earlier one set. */
  lemma LaterOverwrites(t: string, v1: seq<string>, v2: seq<string>, c: Config, p: Parsers)
    requires Known(t) && |v1| == Arity(t) && |v2| == Arity(t)
    ensures Apply(t, v2, Apply(t, v1, c, p), p) == Apply(t, v2, c, p)
  {
  }

  /**
   * The members the initializer leaves out are never set by any option: a
   * configuration read from any command line keeps the zero frame rate,
   * instruction budget, gun radius and dim factor, and fullscreen off.
   */
  lemma {:induction false} OptionsKeepUnsetMembers(tokens: seq<string>, c: Config, p: Parsers)
    requires Options(tokens, c, p).Ok?
    ensures var c' := Options(tokens, c, p).value;
      c'.instructionPerFrame == c.instructionPerFrame && c'.frameRate == c.frameRate
      && c'.radius == c.radius && c'.dimFactor == c.dimFactor && c'.fullscreen == c.fullscreen
    decreases |tokens|
  {
    if tokens != [] {
      var t := tokens[0];
      var n := 1 + Arity(t);
      OptionsKeepUnsetMembers(tokens[n..], Apply(t, tokens[1..n], c, p), p);
    }
  }

  /** Whatever the command line, the modern loop is configured to read no instruction per frame. */
  lemma ReadGivesNoInstructionBudget(argv: seq<string>, p: Parsers)
    requires Read(argv, p).Ok?
    ensures Read(argv, p).value.instructionPerFrame == 0 && Read(argv, p).value.frameRate == 0
  {
    if |argv| > 1 {
      OptionsKeepUnsetMembers(argv[1..], Default(), p);
    }
  }

  /** The initializer with the executor and gun defaults `config.h` defines. */
  function DefaultIntended(): (c: Config)
    ensures c.instructionPerFrame == DefaultInstructionPerFrame && c.frameRate == DefaultFrameRate
    ensures c.radius == 1.0 && c.dimFactor == 0.05
    ensures c == Default().(instructionPerFrame := 1024, frameRate := 60, radius := 1.0, dimFactor := 0.05)
  {
    Default().(instructionPerFrame := DefaultInstructionPerFrame, frameRate := DefaultFrameRate,
               radius := 1.0, dimFactor := 0.05)
  }

  /** `mv_read_config` starting from the intended defaults. */
  function ReadIntended(argv: seq<string>, p: Parsers): Result<Config, Exit>
  {
    if |argv| <= 1 then Ok(DefaultIntended()) else Options(argv[1..], DefaultIntended(), p)
  }

  /** With the intended defaults every accepted command line keeps 1024 instructions per frame at 60 frames per second. */
  lemma ReadIntendedBudget(argv: seq<string>, p: Parsers)
    requires ReadIntended(argv, p).Ok?
    ensures ReadIntended(argv, p).value.instructionPerFrame == DefaultInstructionPerFrame
    ensures ReadIntended(argv, p).value.frameRate == DefaultFrameRate
  {
    if |argv| > 1 {
      OptionsKeepUnsetMembers(argv[1..], DefaultIntended(), p);
    }
  }
}
