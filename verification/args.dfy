/**
 * The lenient command-line parser of the Rust renderer (`read_args`): known
 * flags set their fields, unknown tokens are skipped, a missing or bad value
 * is an error naming the flag, and `-h` exits.
 */
module Args {
  import opened Wrappers
  import opened Bytes
  import Color

  datatype Resolution = Resolution(width: u32, height: u32)

  /**
   * The fields `read_args` touches. `pipe` is the field the `-i` branch
   * writes, which the Rust `Config` struct itself does not declare.
   */
  datatype Config = Config(
    fullscreen: bool,
    window: Resolution,
    resolution: Resolution,
    primary: Color.Color,
    secondary: Color.Color,
    radius: real,
    dimFactor: real,
    pipe: Option<string>,
    instructionPerFrame: u32,
    frameRate: u32)

  datatype InvalidArgumentError =
    | InvalidWindowSize
    | InvalidResolution
    | InvalidPrimaryColor
    | InvalidSecondaryColor
    | InvalidRadius
    | InvalidDimFactor
    | InvalidPipe
    | InvalidInstructionPerFrame
    | InvalidFrameRate

  /** How a run of the parser ends: a configuration, an error, or a process exit (for `-h`). */
  datatype Outcome = Parsed(config: Config) | Failed(error: InvalidArgumentError) | Exit(code: int)

  /**
   * The string parsers the flags use: `str::parse::<u32>` and `str::parse::<f32>`.
   * They are parameters of the model.
   */
  datatype Parsers = Parsers(parseU32: string -> Option<u32>, parseF32: string -> Option<real>)

  /** `Config::default()`. */
  function Default(): (c: Config)
    ensures !c.fullscreen && c.window == Resolution(1280, 720) && c.resolution == Resolution(1920, 1080)
    ensures c.primary == Color.Color(40, 40, 40) && c.secondary == Color.Color(51, 255, 100)
    ensures c.radius == 2.0 && c.dimFactor == 0.3 && c.pipe == None
    ensures c.instructionPerFrame == 500 && c.frameRate == 30
  {
    Config(false, Resolution(1280, 720), Resolution(1920, 1080),
      Color.Color(40, 40, 40), Color.Color(51, 255, 100), 2.0, 0.3, None, 500, 30)
  }

  /** The configuration fields, one per flag. */
  datatype Field = Fullscreen | Window | ResolutionField | Primary | Secondary | Radius | DimFactor | Pipe | Ipf | FrameRate

  /** The field a token's flag sets, or None for `-h` and unknown tokens. */
  function FlagField(token: string): Option<Field>
  {
    if token == "-w" || token == "--window" then Some(Window)
    else if token == "-f" || token == "--fullscreen" then Some(Fullscreen)
    else if token == "-r" || token == "--resolution" then Some(ResolutionField)
    else if token == "-p" || token == "--primary" then Some(Primary)
    else if token == "-s" || token == "--secondary" then Some(Secondary)
    else if token == "-rg" || token == "--radius" then Some(Radius)
    else if token == "-df" || token == "--dim-factor" then Some(DimFactor)
    else if token == "-i" || token == "--pipe" then Some(Pipe)
    else if token == "-e" || token == "--instruction-per-frame" then Some(Ipf)
    else if token == "-fr" || token == "--frame-rate" then Some(FrameRate)
    else None
  }

  predicate IsHelp(token: string)
  {
    token == "-h" || token == "--help"
  }

  /** The error each value-taking flag reports. */
  function FieldError(f: Field): InvalidArgumentError
  {
    match f
    case Fullscreen => InvalidWindowSize  // never reported: `-f` takes no value
    case Window => InvalidWindowSize
    case ResolutionField => InvalidResolution
    case Primary => InvalidPrimaryColor
    case Secondary => InvalidSecondaryColor
    case Radius => InvalidRadius
    case DimFactor => InvalidDimFactor
    case Pipe => InvalidPipe
    case Ipf => InvalidInstructionPerFrame
    case FrameRate => InvalidFrameRate
  }

  /** The number of tokens a flag takes, itself included. */
  function Width(f: Option<Field>): nat
  {
    match f
    case None => 1
    case Some(Fullscreen) => 1
    case Some(Window) => 3
    case Some(ResolutionField) => 3
    case Some(_) => 2
  }

  /** `c` and `c'` agree on every field except possibly `f`. */
  predicate SameExcept(c: Config, c': Config, f: Option<Field>)
  {
    && (f != Some(Fullscreen) ==> c'.fullscreen == c.fullscreen)
    && (f != Some(Window) ==> c'.window == c.window)
    && (f != Some(ResolutionField) ==> c'.resolution == c.resolution)
    && (f != Some(Primary) ==> c'.primary == c.primary)
    && (f != Some(Secondary) ==> c'.secondary == c.secondary)
    && (f != Some(Radius) ==> c'.radius == c.radius)
    && (f != Some(DimFactor) ==> c'.dimFactor == c.dimFactor)
    && (f != Some(Pipe) ==> c'.pipe == c.pipe)
    && (f != Some(Ipf) ==> c'.instructionPerFrame == c.instructionPerFrame)
    && (f != Some(FrameRate) ==> c'.frameRate == c.frameRate)
  }

  /** `args.get(k)`. */
  function Get(args: seq<string>, k: nat): Option<string>
  {
    if k < |args| then Some(args[k]) else None
  }

  /** Two values parsed by the same parser, or None if either is missing or unparsable. */
  function Pair(args: seq<string>, i: nat, parse: string -> Option<u32>): (r: Option<Resolution>)
    ensures r.Some? <==> i + 2 < |args| && parse(args[i + 1]).Some? && parse(args[i + 2]).Some?
    ensures r.Some? ==> r.value == Resolution(parse(args[i + 1]).value, parse(args[i + 2]).value)
  {
    var w :- Get(args, i + 1);
    var h :- Get(args, i + 2);
    var width :- parse(w);
    var height :- parse(h);
    Some(Resolution(width, height))
  }

  /** One value parsed, or None if it is missing or unparsable. */
  function One<T>(args: seq<string>, i: nat, parse: string -> Option<T>): (r: Option<T>)
    ensures r.Some? <==> i + 1 < |args| && parse(args[i + 1]).Some?
    ensures r.Some? ==> r.value == parse(args[i + 1]).value
  {
    var v :- Get(args, i + 1);
    parse(v)
  }

  datatype Step = Continue(next: nat, config: Config) | Stop(outcome: Outcome)

  /**
   * The branch of the loop for a known flag at token i: the field set and the
   * tokens consumed, or that flag's own error when a value is missing or bad.
   */
  function FieldStep(args: seq<string>, i: nat, c: Config, p: Parsers, f: Field): (r: Step)
    requires i < |args|
    ensures r.Continue? ==> r.next == i + Width(Some(f)) && SameExcept(c, r.config, Some(f))
    ensures r.Stop? ==> r.outcome == Failed(FieldError(f))
    ensures i + Width(Some(f)) > |args| ==> r.Stop?
    ensures f == Fullscreen ==> r.Continue? && r.config.fullscreen
    ensures f == Window ==>
      && (r.Continue? <==> Pair(args, i, p.parseU32).Some?)
      && (r.Continue? ==> r.config.window == Pair(args, i, p.parseU32).value)
    ensures f == ResolutionField ==>
      && (r.Continue? <==> Pair(args, i, p.parseU32).Some?)
      && (r.Continue? ==> r.config.resolution == Pair(args, i, p.parseU32).value)
    ensures f == Primary ==>
      && (r.Continue? <==> One(args, i, Color.FromHexStr).Some?)
      && (r.Continue? ==> r.config.primary == One(args, i, Color.FromHexStr).value)
    ensures f == Secondary ==>
      && (r.Continue? <==> One(args, i, Color.FromHexStr).Some?)
      && (r.Continue? ==> r.config.secondary == One(args, i, Color.FromHexStr).value)
    ensures f == Radius ==>
      && (r.Continue? <==> One(args, i, p.parseF32).Some?)
      && (r.Continue? ==> r.config.radius == One(args, i, p.parseF32).value)
    ensures f == DimFactor ==>
      && (r.Continue? <==> One(args, i, p.parseF32).Some?)
      && (r.Continue? ==> r.config.dimFactor == One(args, i, p.parseF32).value)
    ensures f == Pipe ==>
      && (r.Continue? <==> i + 1 < |args|)
      && (r.Continue? ==> r.config.pipe == Some(args[i + 1]))
    ensures f == Ipf ==>
      && (r.Continue? <==> One(args, i, p.parseU32).Some?)
      && (r.Continue? ==> r.config.instructionPerFrame == One(args, i, p.parseU32).value)
    ensures f == FrameRate ==>
      && (r.Continue? <==> One(args, i, p.parseU32).Some?)
      && (r.Continue? ==> r.config.frameRate == One(args, i, p.parseU32).value)
  {
    match f
    case Fullscreen => Continue(i + 1, c.(fullscreen := true))
    case Window =>
      (match Pair(args, i, p.parseU32)
       case None => Stop(Failed(InvalidWindowSize))
       case Some(res) => Continue(i + 3, c.(window := res)))
    case ResolutionField =>
      (match Pair(args, i, p.parseU32)
       case None => Stop(Failed(InvalidResolution))
       case Some(res) => Continue(i + 3, c.(resolution := res)))
    case Primary =>
      (match One(args, i, Color.FromHexStr)
       case None => Stop(Failed(InvalidPrimaryColor))
       case Some(color) => Continue(i + 2, c.(primary := color)))
    case Secondary =>
      (match One(args, i, Color.FromHexStr)
       case None => Stop(Failed(InvalidSecondaryColor))
       case Some(color) => Continue(i + 2, c.(secondary := color)))
    case Radius =>
      (match One(args, i, p.parseF32)
       case None => Stop(Failed(InvalidRadius))
       case Some(v) => Continue(i + 2, c.(radius := v)))
    case DimFactor =>
      (match One(args, i, p.parseF32)
       case None => Stop(Failed(InvalidDimFactor))
       case Some(v) => Continue(i + 2, c.(dimFactor := v)))
    case Pipe =>
      (match Get(args, i + 1)
       case None => Stop(Failed(InvalidPipe))
       case Some(v) => Continue(i + 2, c.(pipe := Some(v))))
    case Ipf =>
      (match One(args, i, p.parseU32)
       case None => Stop(Failed(InvalidInstructionPerFrame))
       case Some(v) => Continue(i + 2, c.(instructionPerFrame := v)))
    case FrameRate =>
      (match One(args, i, p.parseU32)
       case None => Stop(Failed(InvalidFrameRate))
       case Some(v) => Continue(i + 2, c.(frameRate := v)))
  }

  /** One iteration of the `while i < args.len()` loop. */
  function StepAt(args: seq<string>, i: nat, c: Config, p: Parsers): (r: Step)
    requires i < |args|
    ensures r.Continue? ==> r.next == i + Width(FlagField(args[i]))
    ensures r.Continue? ==> SameExcept(c, r.config, FlagField(args[i]))
    ensures r.Continue? && FlagField(args[i]) == Some(Fullscreen) ==> r.config.fullscreen
    ensures r.Stop? && IsHelp(args[i]) ==> r.outcome == Exit(0)
    ensures r.Stop? && !IsHelp(args[i]) ==> FlagField(args[i]).Some? && r.outcome == Failed(FieldError(FlagField(args[i]).value))
    ensures FlagField(args[i]).Some? && i + Width(FlagField(args[i])) > |args| ==> r.Stop?
    ensures FlagField(args[i]).None? && !IsHelp(args[i]) ==> r == Continue(i + 1, c)
    ensures IsHelp(args[i]) ==> r == Stop(Exit(0))
    ensures FlagField(args[i]).Some? ==> r == FieldStep(args, i, c, p, FlagField(args[i]).value)
  {
    var token := args[i];
    match FlagField(token)
    case None => if IsHelp(token) then Stop(Exit(0)) else Continue(i + 1, c)
    case Some(f) => FieldStep(args, i, c, p, f)
  }

  /** The loop from token i on; it terminates because every step moves i forward. */
  function ReadFrom(args: seq<string>, i: nat, c: Config, p: Parsers): Outcome
    decreases |args| - i
  {
    if i >= |args| then Parsed(c)
    else
      match StepAt(args, i, c, p)
      case Stop(outcome) => outcome
      case Continue(next, c') => ReadFrom(args, next, c', p)
  }

  /** `read_args`: token 0 is the program name. */
  function ReadArgs(args: seq<string>, p: Parsers): Outcome
  {
    ReadFrom(args, 1, Default(), p)
  }

  /** A token that is neither a flag nor `-h`. */
  predicate Inert(token: string)
  {
    FlagField(token).None? && !IsHelp(token)
  }

  /** Without any flag the result is the default configuration. */
  lemma {:induction false} NoFlagsGivesDefault(args: seq<string>, i: nat, c: Config, p: Parsers)
    requires forall k :: i <= k < |args| ==> Inert(args[k])
    ensures ReadFrom(args, i, c, p) == Parsed(c)
    decreases |args| - i
  {
    if i < |args| {
      NoFlagsGivesDefault(args, i + 1, c, p);
    }
  }

  lemma ReadArgsWithoutFlags(args: seq<string>, p: Parsers)
    requires forall k :: 1 <= k < |args| ==> Inert(args[k])
    ensures ReadArgs(args, p) == Parsed(Default())
  {
    NoFlagsGivesDefault(args, 1, Default(), p);
  }

  /** Once set, fullscreen stays set: no flag turns it off. */
  lemma {:induction false} FullscreenSticks(args: seq<string>, i: nat, c: Config, p: Parsers)
    requires c.fullscreen
    requires ReadFrom(args, i, c, p).Parsed?
    ensures ReadFrom(args, i, c, p).config.fullscreen
    decreases |args| - i
  {
    if i < |args| {
      match StepAt(args, i, c, p)
      case Stop(_) =>
      case Continue(next, c') => FullscreenSticks(args, next, c', p);
    }
  }

  /** A value-taking flag whose value tokens run past the end fails with that flag's own error. */
  lemma MissingValueFails(args: seq<string>, i: nat, c: Config, p: Parsers)
    requires i < |args| && FlagField(args[i]).Some? && FlagField(args[i]) != Some(Fullscreen)
    requires i + Width(FlagField(args[i])) > |args|
    ensures ReadFrom(args, i, c, p) == Failed(FieldError(FlagField(args[i]).value))
  {
  }

  /**
   * A later occurrence of a flag overwrites what earlier ones set: once the
   * parser reaches a flag, the value its field held before has no effect on
   * the outcome.
   */
  lemma ReadFromOverwrites(args: seq<string>, i: nat, c1: Config, c2: Config, p: Parsers)
    requires i < |args| && FlagField(args[i]).Some? && SameExcept(c1, c2, FlagField(args[i]))
    ensures ReadFrom(args, i, c1, p) == ReadFrom(args, i, c2, p)
  {
    var f := FlagField(args[i]).value;
    assert StepAt(args, i, c1, p) == StepAt(args, i, c2, p) by {
      match f
      case Fullscreen => assert c1.(fullscreen := true) == c2.(fullscreen := true);
      case Window =>
      case ResolutionField =>
      case Primary =>
      case Secondary =>
      case Radius =>
      case DimFactor =>
      case Pipe =>
      case Ipf =>
      case FrameRate =>
    }
  }
}
