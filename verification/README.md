# MiniVector in Dafny

MiniVector is a vector-display emulator. Producer programs write a stream
of 5-byte instruction records (a type byte and a big-endian 32-bit payload)
into a pipe. A renderer reads the stream, moves a simulated electron beam
and accumulates its trace in a frame. The repository holds two renderers
and the producers:

- a Rust renderer (`src/`);
- an older C renderer (`source/`);
- Python producers (`test/`, `tools/`).

This project models the logic at the core of all three and proves what
that logic promises. That core is the wire codecs, the bounded buffers and
queues, the small state machines around the instruction stream, and the
list transformations of the producers. The window, GPU, pipe and file
plumbing around it is left out.

Modules follow the source files:

- **Rust renderer**:
  - `Instruction`: record decoding;
  - `Processor`: the instruction FIFO and power tracking;
  - `GfxPoint`: 16+16-bit point packing;
  - `Electron`: 14+14-bit GPU point packing and `set_points` bookkeeping;
  - `PipeReader`: capped, record-aligned pipe reads;
  - `Events`, `KeyCode`, `Mouse` and `EventManager`: the 9-byte event record, its payloads and the event queue;
  - `Color`: 24-bit hex colours;
  - `Timing`: frame-time history and delay;
  - `Args`: the lenient `read_args`.
- **C renderer**:
  - `CInstruction`: coordinate packing and the display update;
  - `CPipe`: the file-offset reader;
  - `CColor`;
  - `CConfig`: the strict `mv_read_config`;
  - `Display` and `LegacyDisplay`: the bounded point arrays;
  - `Vec`: vector helpers over reals;
  - `Gun`: the electron gun;
  - `Trace`, `FrameLoop` and `Win96`: the per-frame position windows of the two event loops;
  - `Shader`: the per-pixel compute-shader rule;
  - `Renderer`: the two-texture clear/swap state.
- **Python producers**:
  - `PyWire`: the shared `Instruction` dataclass and `(x << 16) | y` packing;
  - `WriteScript`: `test/write.py`;
  - `FontRendering`;
  - `Pong`;
  - `ImageConverter` (`img2mv`) and `VideoConverter` (`vid2mv`);
  - `InlineWorker`.
- **Shared helpers**: `Wrappers` (Option/Result), `Bytes` (fixed-width integers and big-endian byte strings) and `Bits` (OR on integers and disjoint bit fields).

Each function is modelled as its own file writes it. The Rust and C trees
are not reconciled where they differ. Four points of the code fix what the
model does:

- `mv_coords_to_u32` (source/instruction.c:9-12) ORs `x << 16` with an
  unmasked `y`, so a negative `y` sign-extends over `x`.
  `CInstruction.CoordsToU32` models the code as written; the masked form is
  the corrected member under Findings.
- The Rust `Point::from` (src/gfx/point.rs:27-33) yields unsigned halves in
  [0, 65535], not sign-extended 16-bit values, and so does `GfxPoint`.
- The Rust decoder (src/instruction.rs:68-79) numbers the instruction kinds
  Clear 0, MoveTo 1, PowerOff 2 and PowerOn 3, and the model uses those
  codes.
- A record of unknown type is dropped. The warning logged for it is left
  out.

Floating-point values are modelled as reals. A square root is never
computed. Every magnitude is supplied by the caller, together with the
fact that it is the non-negative root of the squared length
(`Vec.IsMagnitude`).

## Model

| member | source | states |
|---|---|---|
| Instruction.KindFromByte | src/instruction.rs:68-79 | Type bytes 0, 1, 2 and 3 decode to Clear, MoveTo, PowerOff and PowerOn, each the kind whose wire code is that byte; every byte above 3 is an error carrying that byte |
| Instruction.KindCodeRoundTrip | src/instruction.rs:71-78 | Decoding the wire code of any kind gives that kind back |
| Instruction.FromBytes | src/instruction.rs:37-45 | A 5-byte record decodes exactly when its type byte is at most 3; the payload is the big-endian value of bytes 1..5, and writing it back big-endian gives those four bytes |
| Instruction.FromBytesToBytes | src/instruction.rs:37-45 | Every instruction, written as its type byte followed by its payload big-endian, decodes to itself |
| Instruction.FromBytesSlice | src/instruction.rs:48-65 | The loop over 5-byte chunks always returns Ok, and the list it builds is the reference decoding: the decodable complete chunks, in input order |
| Instruction.DecodeChunksLength | src/instruction.rs:50-63 | One instruction per complete chunk whose type byte is valid, so at most len/5 instructions |
| Instruction.DecodeChunksComplete | src/instruction.rs:50-63 | The output has exactly len/5 instructions if and only if every complete chunk has a type byte of at most 3 |
| Instruction.DecodeChunksAppend | src/instruction.rs:50-63 | Chunks decode independently: a whole-chunk prefix decodes to its own instructions, followed by those of the rest |
| Instruction.InvalidChunkSkipped | src/instruction.rs:59-62 | A chunk with an invalid type byte contributes nothing, and the chunks after it are still decoded |
| Instruction.PartialTailIgnored | src/instruction.rs:51-54 | A trailing chunk shorter than 5 bytes adds no instruction |
| Instruction.DecodeEncode | src/instruction.rs:37-65 | Writing a list of instructions back to back and decoding the bytes gives the list back |
| Processor.New | src/processor.rs:24-32 | A new processor has an empty queue and no points, power on, the clear flag down, and the given batch size |
| Processor.PushInstructions | src/processor.rs:35-37 | The new instructions are queued behind the waiting ones, whose order is unchanged; nothing else changes |
| Processor.BatchSize | src/processor.rs:41-46 | A frame consumes min(instructions_per_frame, queue length) instructions, or the whole queue when instructions_per_frame is 0 |
| Processor.Step | src/processor.rs:69-92 | PowerOn and PowerOff set the power, Clear changes nothing, and MoveTo appends `Point::from(data)` carrying the current power as 0 or 1 |
| Processor.RunBatchSpec | src/processor.rs:49-53 | Over a batch, the final power is that of the latest PowerOn/PowerOff (or the starting power), there is one point per MoveTo, and the point of each MoveTo sits at its rank among the MoveTos with the power in force before it |
| Processor.ProcessSpec | src/processor.rs:40-60 | `process` (the function `Processor.Process`) leaves the unconsumed instructions queued in order, carries the power over, and makes the points the previous frame's last point (if any) followed by one point per consumed MoveTo. The point of the j-th consumed MoveTo is built from its data word with the power in force when it is reached |
| Processor.ProcessPoints | src/processor.rs:40-60 | The point of the j-th consumed MoveTo sits right after the carried point, at position MoveCount of the instructions before it, and is built from its data word with the power in force at j |
| Processor.ClearIsNoOp | src/processor.rs:75-77 | A Clear instruction changes neither the power nor the points |
| Processor.ShouldClear | src/processor.rs:95-102 | `should_clear` returns the flag and leaves it lowered, changing nothing else |
| Processor.ShouldClearAlwaysFalse | src/processor.rs:24-32 | new, push_instructions and process never raise the clear flag, so on every reachable processor `should_clear` answers false and changes nothing |
| GfxPoint.New | src/gfx/point.rs:13-19 | `Point::new` keeps x and y and stores power 1 exactly for true and 0 exactly for false |
| GfxPoint.SaturatingU32 | src/gfx/point.rs:23 | `f32 as u32` drops the fraction of an in-range value, maps negatives to 0 and sticks at u32::MAX above the range |
| GfxPoint.FromU32 | src/gfx/point.rs:27-33 | `Point::from(d)` gives integral x and y in [0, 65535] and power 0 |
| GfxPoint.EncodeFromU32 | src/gfx/point.rs:22-33 | `encode(from(d)) == d` for every u32 d |
| GfxPoint.FromU32Encode | src/gfx/point.rs:22-33 | For integral x, y in [0, 65535], `from(encode(p))` gives x and y back, with power 0 |
| Electron.Normalized | src/gfx/electron.rs:635-636 | The normalised coordinate is clamped into [0, 1] and equals v / size when that is already inside |
| Electron.Scaled | src/gfx/electron.rs:639-640 | A scaled coordinate never exceeds 0x3FFF, so it fits 14 bits |
| Electron.UnpackFields | src/gfx/electron.rs:648-650 | The unpacked x and y fields are at most 0x3FFF and the power is 0 or 1 |
| Electron.PackFieldsDisjoint | src/gfx/electron.rs:643 | With 14-bit x and y and a power below 16, x sits in bits 18-31, y in bits 4-17 and the power below, with no overlap |
| Electron.UnpackPackFields | src/gfx/electron.rs:643-650 | For 14-bit x and y and power 0 or 1, unpacking a packed point gives exactly those fields back |
| Electron.PowerSixteenAliasesY | src/gfx/electron.rs:643 | A power of 16 is not kept clear of y: it packs like y = 1 and reads back as y = 1, power 0 |
| Electron.UnpackPackCloseX | src/gfx/electron.rs:633-657 | An on-screen x comes back from packing and unpacking at most one quantisation step (width / 0x3FFF) below itself, never above |
| Electron.LookupData | src/gfx/electron.rs:666-686 | The texture data has one packed entry per point in input order, a single 0 for no points, and is cut to the first 8192 entries |
| Electron.ComputeWorkgroupCount | src/gfx/electron.rs:713-715 | The workgroup count is ceil(size / 8) for size up to u32::MAX - 7; above that the wrapping add gives 0 |
| Electron.SetPoints | src/gfx/electron.rs:198-228 | `set_points` rebuilds the lookup data, writes the full point count even when the data was truncated, and moves the current point to the last point only when there is one |
| Electron.DequantiseScaled | src/gfx/electron.rs:633-640 | Scaling an on-screen coordinate to 14 bits and back loses less than one step (width / 0x3FFF), and never rounds up |
| Electron.SetPointsTruncates | src/gfx/electron.rs:198-228 | With more than 8192 points, the point count handed to the shader exceeds the entries the texture holds |
| PipeReader.Read | src/readers/pipe.rs:70-120 | The bytes returned are a whole number of 5-byte records and the rest (under 5 bytes) replaces `left_over`. Together they are exactly the bytes consumed, in order, and the earlier `left_over` is in neither. At most instructions_per_frame × 5 bytes are consumed. A read error other than EAGAIN is returned and leaves `left_over` untouched |
| Events.KindCode | src/events/mod.rs:118-130 | Every event kind converts to a byte in 0..6 |
| Events.KindFromByte | src/events/mod.rs:89-98 | The kind byte decodes exactly when it is at most 6, to the kind whose code it is; a larger byte is the invalid-event-kind error |
| Events.KindCodeBijection | src/events/mod.rs:89-97 | The kind-to-byte map is injective, hits every byte 0..6, and the kind table of `from_bytes` inverts it |
| Events.KeyPressedEvent | src/events/mod.rs:38-40 | `key_pressed(code)` has kind KeyPressed and the code's u64 value as data |
| Events.KeyReleasedEvent | src/events/mod.rs:43-45 | `key_released(code)` has kind KeyReleased and the code's u64 value as data |
| Events.MousePressedEvent | src/events/mod.rs:53-55 | `mouse_pressed(button)` has kind MousePressed and the button's value as data |
| Events.MouseReleasedEvent | src/events/mod.rs:58-60 | `mouse_released(button)` has kind MouseReleased and the button's value as data |
| Events.MouseMovedEvent | src/events/mod.rs:48-50 | `mouse_moved(x, y)` has kind MouseMoved, with x in the high 32 bits of the data and y in the low 32 |
| Events.FrameFinishedEvent | src/events/mod.rs:63-65 | `frame_finished()` has kind FrameFinished and data 0 |
| Events.KeyCodeOf | src/events/mod.rs:68-73 | `key_code` succeeds exactly for KeyPressed and KeyReleased events, returning the data as the code; otherwise it is the not-a-key-event error |
| Events.MousePosition | src/events/mod.rs:76-85 | `mouse_position` succeeds exactly for MouseMoved events, and its two halves recombine to the data; otherwise it is the not-a-mouse-moved-event error |
| Events.MousePositionOfMouseMoved | src/events/mod.rs:48-50 | `mouse_position(mouse_moved(x, y)) == Ok((x, y))` for all u32 x and y |
| Events.KeyCodeOfKeyEvent | src/events/mod.rs:38-45 | A key-pressed or key-released event hands back the key code it was built from |
| Events.FromBytes | src/events/mod.rs:88-104 | A 9-byte record decodes exactly when byte 0 is at most 6, to that kind with the big-endian value of bytes 1..9 as data |
| Events.ToBytes | src/events/mod.rs:107-115 | An event is written as 9 bytes starting with its kind byte |
| Events.FromBytesToBytes | src/events/mod.rs:88-115 | `from_bytes(to_bytes(e)) == Ok(e)` for every event |
| Events.ToBytesFromBytes | src/events/mod.rs:88-115 | `to_bytes(from_bytes(b)) == b` for every 9-byte b whose kind byte is at most 6 |
| KeyCode.FromU32 | src/events/keycode.rs:4-8 | A code built from a u32 converts back to the same value, which is below 2^32 |
| KeyCode.FromU64 | src/events/keycode.rs:10-20 | A code built from a u64 converts back to the same value |
| KeyCode.FromU32Injective | src/events/keycode.rs:4-14 | Building from a u32 is injective and agrees with building from the same value as a u64 |
| Mouse.FromWindow | src/events/mouse.rs:19-29 | Left, Right, Middle, Back and Forward map to 0, 1, 2, 3 and 4; another button keeps its own code |
| Mouse.FromWindowBound | src/events/mouse.rs:19-29 | Every converted button carries a value below 2^16 |
| Mouse.OtherAliasesNamed | src/events/mouse.rs:5-9 | The conversion is not injective: other buttons 0 and 4 become LEFT and FORWARD |
| EventManager.New | src/events/manager.rs:17-22 | A new manager has an empty queue and no handlers |
| EventManager.Register | src/events/manager.rs:25-27 | `register` binds the kind to the handler, keeps every other kind's binding, adds no other kind, and leaves the queue alone |
| EventManager.Dispatch | src/events/manager.rs:30-32 | `dispatch` appends the event at the back, keeping earlier events and all handlers |
| EventManager.Clear | src/events/manager.rs:35-37 | `clear` empties the queue and keeps the handlers |
| EventManager.QueueIsDispatchedEvents | src/events/manager.rs:25-42 | After any run of register and dispatch calls, the queue is the earlier queue followed by every dispatched event in order |
| EventManager.QueueAfterClear | src/events/manager.rs:30-42 | After a clear, the queue holds exactly the events dispatched since |
| EventManager.RunAppend | src/events/manager.rs:25-42 | Running two call sequences one after the other is the same as running their concatenation |
| Color.FromHex | src/color.rs:29-35 | The channels `from_hex` takes re-pack to the low 24 bits of the value: r·2^16 + g·2^8 + b == hex mod 2^24 |
| Color.ToHex | src/color.rs:38-40 | `to_hex` is below 2^24 and equals r·2^16 + g·2^8 + b |
| Color.FromHexToHex | src/color.rs:29-40 | `from_hex(to_hex(c)) == c` for every colour |
| Color.ToHexFromHex | src/color.rs:29-40 | `to_hex(from_hex(h)) == h & 0xFFFFFF` for every u32 h |
| Color.HexByte | src/color.rs:44 | `{:02X}` is two uppercase hex digits |
| Color.ToHexStr | src/color.rs:43-45 | `to_hex_str` is '#' followed by exactly six uppercase hex digits |
| Color.DigitValue | src/color.rs:50 | A hex digit of either case has a value below 16, and only hex digits have a value |
| Color.DigitsValue | src/color.rs:50 | A run of characters has a base-16 value exactly when every character is a hex digit of either case |
| Color.DigitsValueBound | src/color.rs:50 | n hex digits are worth less than 16^n |
| Color.EightDigitsFit | src/color.rs:50 | At most eight hex digits always fit a u32, so only a longer run can overflow |
| Color.ParseU32Hex | src/color.rs:50 | `u32::from_str_radix(s, 16)` succeeds exactly when s, after at most one leading '+', is a non-empty run of hex digits worth less than 2^32, and then gives that value |
| Color.TrimHashes | src/color.rs:49 | `trim_start_matches('#')` removes a prefix made only of '#', and what is left does not start with '#' |
| Color.FromHexStr | src/color.rs:48-52 | `from_hex_str` gives a colour exactly when the string after the leading '#'s is a base-16 u32 literal, and that colour's hex is the literal's value mod 2^24 |
| Color.FromHexStrToHexStr | src/color.rs:43-52 | `from_hex_str(to_hex_str(c)) == Some(c)` for every colour |
| Color.HighBitsIgnored | src/color.rs:29-35 | Bits above the low 24 are parsed but dropped: "#1FFFFFF" and "#FFFFFF" give the same colour |
| Color.RejectsOnlyHashes | src/color.rs:49-50 | "#" gives no colour, because nothing is left after the hashes |
| Color.RejectsBareSign | src/color.rs:49-50 | "##+" gives no colour: a sign with no digit is not a number |
| Color.RejectsNonDigit | src/color.rs:49-50 | "#G" gives no colour |
| Color.RejectsTooWide | src/color.rs:50 | "100000000" gives no colour, because 2^32 does not fit a u32 |
| Timing.New | src/timing.rs:14-20 | A new timer has a zero delta and an empty history |
| Timing.Update | src/timing.rs:28-36 | `update` records the new delta at the back of the history and drops exactly the oldest entry when there are more than 100, so a history of at most 100 stays at most 100 |
| Timing.HistoryIsLatestFrames | src/timing.rs:3-35 | From a new timer, the history is always the latest 100 frame durations, oldest first |
| Timing.TargetFrameTime | src/timing.rs:55 | The target frame time is 1/fps seconds rounded to the nearest whole nanosecond (within half a nanosecond of 10^9 / fps), and a rate of 0 is rejected |
| Timing.TargetAtSeven | src/timing.rs:55 | At 7 frames a second the target is 142857143 ns: 10^9 / 7 = 142857142.86 rounds up |
| Timing.Delay | src/timing.rs:54-61 | `delay` never exceeds the target frame time. It is the target minus the delta when the delta is shorter, so the two add up to the target, and zero otherwise. A rate of 0 is an error |
| Args.FieldStep | src/main.rs:69-161 | A recognised flag sets only its own field and consumes 3 tokens (`-w`, `-r`), 1 (`-f`) or 2 (every other flag). It goes on exactly when its values are present and parse, and then stores the parsed values (the pipe path as given, and `-f` sets fullscreen); otherwise it stops with that flag's own error |
| Args.StepAt | src/main.rs:67-169 | One loop iteration on a flag is that flag's step: it moves i forward by the flag's width, stores the flag's parsed values and changes no other field. A value running past the end stops with the flag's own error. `-h` exits with status 0, and any other unrecognised token is skipped on its own |
| Args.Pair | src/main.rs:70-83 | A two-value flag succeeds exactly when both following tokens exist and parse, and then holds the two parsed values |
| Args.ReadFromOverwrites | src/main.rs:67-170 | A later occurrence of a flag overwrites what earlier ones set: once the loop reaches a flag, the value its field held before does not affect the result |
| Args.NoFlagsGivesDefault | src/main.rs:166-172 | From any configuration, tokens that are neither flags nor `-h` leave it unchanged |
| Args.ReadArgsWithoutFlags | src/main.rs:63-172 | With no flags, `read_args` (the function `Args.ReadArgs`) gives `Config::default()` |
| Args.FullscreenSticks | src/main.rs:86-89 | Once fullscreen is set, no later token turns it off |
| Args.MissingValueFails | src/main.rs:70-150 | A value-taking flag whose values run past the end fails with that flag's own error variant |
| CInstruction.CoordsRoundTrip | source/instruction.c:9-27 | For y >= 0, the processor's split `data >> 16` / `data & 0xFFFF` gets back the x and y that `mv_coords_to_u32` (the function `CInstruction.CoordsToU32`) packed |
| CInstruction.NegativeYOverwritesX | source/instruction.c:9-12 | For y < 0, sign extension of y sets the top half to all ones. The decoded x is -1 whatever x was, and only y survives |
| CInstruction.CoordsCounterexample | source/instruction.c:9-12 | (1, -1) packs to 0xFFFFFFFF, which decodes as (-1, -1) |
| CInstruction.MaskedIsShiftOr | source/instruction.c:9-12 | The corrected packing is the shift-or of the source with y first cut to 16 bits |
| CInstruction.CoordsMaskedRoundTrip | source/instruction.c:9-27 | The corrected packing round-trips every pair of 16-bit coordinates. For y >= 0 it is the same word the source produces |
| CInstruction.Process | source/instruction.c:20-29 | SET_POINT appends exactly one point, the one decoded from the data word. CLEAR falls through into SET_POINT, so it leaves a display holding only that point. Any other type leaves the display unchanged |
| CInstruction.SetPointAddsCoords | source/instruction.c:20-29 | For every (x, y), a SET_POINT of the corrected coordinate word appends exactly (x, y). A CLEAR with that word leaves [(x, y)] |
| CColor.FromHexAgreesWithRust | source/color.c:15-18 | `mv_create_color_from_hex` gives the same channels as the Rust `Color::from_hex` |
| CColor.FromHexChannels | source/color.c:15-18 | The colour depends only on the low 24 bits, and its channels re-pack to exactly those bits |
| CColor.FromHexOfPacked | source/color.c:7-18 | Packing r, g and b into a hex value and converting it back gives `mv_create_color(r, g, b)` |
| CColor.FromHexSameColour | source/color.c:15-18 | Two hex values give the same colour exactly when their low 24 bits agree |
| CColor.FromHexStr | source/color.c:23-28 | The colour re-packs to the low 24 bits of whatever `sscanf("%x")` scanned |
| CPipe.Create | source/pipe.c:16-25 | A new pipe starts reading at record 0 |
| CPipe.ObservedSize | source/pipe.c:82-84 | The file size seen through the `uint32_t` never exceeds the real size, and equals it below 4 GiB |
| CPipe.ReadInstruction | source/pipe.c:78-115 | Nothing is read, and the pipe is unchanged, exactly when the file does not yet hold record index + 1. Otherwise the result is the 5 bytes at index · 5 and the index advances by one |
| CPipe.ReadRecords | source/pipe.c:78-115 | Polling n times reads min(n, size / 5) records, each the 5 bytes at its own position in order, and the index counts them |
| CConfig.ReadNoOptions | source/config.c:12-42 | With no options, `mv_read_config` (the function `CConfig.Read`) returns the initializer's configuration. That is window 640x480, resolution 320x180, palette (40,40,40)/(51,255,100), line width 2 and pipe `/tmp/mv_pipe` |
| CConfig.ExitStatus | source/config.c:42-127 | The parser exits only with status 0 or 1. It exits with 0 exactly when it reaches a `-h`/`--help` token as an option, after accepting every option before it |
| CConfig.OptionsAppend | source/config.c:42-127 | Options are processed left to right. After an accepted prefix, parsing continues from the configuration that prefix produced |
| CConfig.MissingValue | source/config.c:46-51 | A value-taking option with fewer values left than it needs ends the parse with status 1 |
| CConfig.UnknownIsFatal | source/config.c:121-126 | An unrecognised token ends the parse with status 1, whatever follows it |
| CConfig.LaterOverwrites | source/config.c:44-115 | Repeating an option leaves only the last occurrence's values in effect |
| CConfig.OptionsKeepUnsetMembers | source/config.c:42-127 | No option touches the instruction budget, frame rate, gun radius, dim factor or fullscreen flag |
| CConfig.ReadGivesNoInstructionBudget | source/config.c:25-41 | Whatever the command line, an accepted configuration has 0 instructions per frame and frame rate 0. The initializer never sets the `executor` members |
| CConfig.DefaultIntended | source/config.h:13-21 | The intended initializer carries the header's 1024 instructions per frame, 60 frames per second, radius 1 and dim factor 0.05, and otherwise equals the one written |
| CConfig.ReadIntendedBudget | source/config.h:13-14 | Starting from the intended defaults, every accepted command line keeps 1024 instructions per frame at 60 fps |
| Display.Create | source/display.c:10-15 | A new display has no live points |
| Display.Append | source/display.c:54-55 | `points[point_count++] = p` is in bounds exactly when the count is below 4096. It then appends p to the live points and leaves the slots above untouched. Otherwise the write faults at that index |
| Display.DrawLine | source/display.c:47-56 | A full display is left as it is. The only faulting case is count 4095, where the unchecked second write lands past the array. Otherwise the two endpoints are appended in order |
| Display.Clear | source/display.c:63-66 | Clearing empties the live list but leaves the array's contents as they were |
| Display.EvenCountNeverFaults | source/display.c:47-66 | Lines and clears keep the count even, and with an even count a line never writes past the array |
| Display.RunNeverFaults | source/display.c:47-66 | From an even count, any sequence of lines and clears stays in bounds |
| LegacyDisplay.Create | source/legacy/display.c:10-16 | A new legacy display has no live points, and its array is zeroed by `calloc` |
| LegacyDisplay.Append | source/legacy/display.c:63 | A single write is in bounds exactly when the count is below 4096, and then appends the point |
| LegacyDisplay.AddPoint | source/legacy/display.c:57-64 | A full display ignores the point. Otherwise it becomes the last live point |
| LegacyDisplay.DrawLineAsWritten | source/legacy/display.c:75-84 | The line checks capacity only once. With 4095 points its second write faults at index 4096, and otherwise it appends both endpoints or ignores a full display |
| LegacyDisplay.Clear | source/legacy/display.c:91-95 | Clearing yields a display equal to a freshly created one |
| LegacyDisplay.AddPointsSaturate | source/legacy/display.c:57-64 | Single points fill the display up to 4096 and never beyond |
| LegacyDisplay.DrawLineOverflowReachable | source/legacy/display.c:75-84 | 4095 single points followed by one line write past the array |
| LegacyDisplay.DrawLine | source/legacy/display.c:75-84 | The corrected line needs room for both points. It then appends both endpoints, and otherwise changes nothing |
| LegacyDisplay.DrawLineAgreesBelowLastSlot | source/legacy/display.c:75-84 | The corrected and the written line agree at every count except 4095 |
| LegacyDisplay.RunKeepsPrefix | source/legacy/display.c:57-95 | Without a clear, the live points only grow at the end, over any run of operations (the function `LegacyDisplay.Run`) |
| Trace.Consumed | source/loop.c:173-179 | A frame reads at most `instructions_per_frame` instructions. Every read before the stop succeeded, and when it stops early it is because the next read returned NULL |
| FrameLoop.ShiftLeft | source/loop.c:186-189 | Every slot below the bound takes its right neighbour, and every slot from the bound on keeps its value |
| FrameLoop.ProcessModern | source/loop.c:168-199 | The frame consumes instructions up to the first NULL or the budget, and the gun sees each in order. With one instruction per frame, the shift bound `num_positions - 1` wraps around exactly when an instruction is read. With a budget of 2 or more, the renderer sees the closed-form off-by-one view |
| FrameLoop.ViewAsWrittenCounterexample | source/loop.c:184-196 | With 2 slots the renderer sees only the stale slot 0, never the frame's sample. With 3 slots and a full frame it sees the first sample twice |
| FrameLoop.ViewAsWrittenExactOnlyWhenConstant | source/loop.c:192-196 | Below a full frame, the renderer sees the frame's samples exactly when all of them equal the stale slot 0 |
| FrameLoop.ProcessModernCorrected | source/loop.c:168-199 | The corrected loop hands the renderer exactly the frame's samples, oldest first, one per instruction consumed |
| Win96.Evict | source/support/win96.c:43-46 | The eviction moves each slot below `count - 1` one place left and leaves every other slot as it was |
| Win96.EventLoop | source/support/win96.c:24-53 | The window's first `num_positions` slots are the samples of the instructions consumed, oldest first. The count equals the number consumed, never more than the budget, and the slots past it are untouched |
| Gun.Create | source/gun.c:15-26 | A new gun rests at the origin, aims at the origin, and is unpowered at power 0. It keeps the three rates it was given |
| Gun.SwitchAndAimIndependent | source/gun.c:33-57 | Power on/off and aim each set one field. The last switch wins, the last aim wins, re-aiming at the current target changes nothing, and switching and aiming commute |
| Gun.FarEnoughMeansThree | source/gun.c:74 | `floor(distance) > 2` holds exactly when the distance is at least 3 |
| Gun.StepTowards | source/gun.c:77-79 | The candidate position lies abs(speed · delta) away from the current position, along the direction to the target |
| Gun.OvershootsIsMagnitudeComparison | source/gun.c:82 | The overshoot test, done on squared lengths, agrees with comparing the remaining magnitude with the distance |
| Gun.NextPower | source/gun.c:98-113 | While on, the power is capped at 100. While off, it is floored at 0. Power is real-valued; the `int8_t` store before the cap is not modelled |
| Gun.Update | source/gun.c:65-114 | The previous position is saved. The gun moves only when it is at least 3 away, and otherwise stays put. Target, switch and rates are unchanged, and the power follows the ramp |
| Gun.UpdateNeverRecedes | source/gun.c:65-95 | An update never leaves the gun farther from its target than before |
| Gun.UpdateStepLength | source/gun.c:74-90 | A moving gun either lands on the target or travels exactly abs(speed · delta) |
| Gun.PowerIsMonotone | source/gun.c:98-113 | With non-negative rates and delta, the real-valued power stays in [0, 100]. It never falls while on and never rises while off |
| Vec.AddSubtract | source/point.c:36-51 | Adding and subtracting the same point are inverse operations |
| Vec.DivideMultiply | source/point.c:60-75 | Dividing by a non-zero scalar undoes multiplying by it |
| Vec.MagnitudeFacts | source/point.c:83-86 | A point has only one magnitude, and it is 0 exactly for the origin |
| Vec.DistanceSymmetric | source/point.c:24-27 | The distance from a to b is the magnitude of b - a, and it is symmetric |
| Vec.Normalize | source/point.c:94-98 | A non-zero point normalises to a unit vector which, multiplied back by the magnitude, gives the point |
| Vec.Scale | source/point.c:107-110 | Scaling to k gives a point of magnitude abs(k) in the same direction, namely the point times k/m |
| Vec.MultiplyLength | source/point.c:60-86 | Multiplying by s multiplies the magnitude by the absolute value of s |
| Shader.Clamp | source/renderer.h:35 | GLSL `clamp` always lands in [lo, hi]. It is the identity inside the range and the nearer bound outside it |
| Shader.EndpointsAreBetween | source/renderer.h:21-26 | Both ends of the beam segment pass `is_point_between_two_points`, whatever distance witnesses the test is given |
| Shader.NearOnlyAtRounded | source/renderer.h:31-33 | On the pixel grid, `length(diff) < 1` holds for exactly one pixel, the one under the rounded gun position |
| Shader.Lit | source/renderer.h:34-36 | A stored colour has every channel in [0, 1] and alpha 1 |
| Shader.Pixel | source/renderer.h:28-38 | A pixel is lit exactly when it is the pixel under the rounded gun or lies on the segment from the previous-position uniform to the gun. Any other pixel keeps its colour. The uniform is a parameter; it is never uploaded, so at run time it is the origin |
| Shader.LitNeverDarkens | source/renderer.h:35 | With non-negative colour and power, lighting never lowers an in-range channel |
| Shader.LitAtZeroPower | source/renderer.h:35-36 | At power 0 a lit pixel keeps its in-range colour and only becomes opaque |
| Renderer.Not | source/renderer.c:146 | C's `!` maps texture 0 to 1 and every other index to 0 |
| Renderer.Create | source/renderer.c:13-45 | A new renderer draws to texture 0 with no clear pending, and has two textures of width·height pixels |
| Renderer.ClearFrame | source/renderer.c:141-147 | A clear request raises the flag and switches to the other texture, and changes no pixel |
| Renderer.Render | source/renderer.c:101-123 | A pending clear zeroes the non-current texture and drops the flag, leaving the current texture alone. Without a pending clear nothing changes |
| Renderer.Channel | source/renderer.c:81-82 | A palette byte uploads as a channel in [0, 1]. It is 0 exactly for byte 0 and 1 exactly for byte 255 |
| Renderer.ChannelMonotone | source/renderer.c:81-82 | Uploading keeps the order of palette bytes, in both directions |
| Renderer.Dispatch | source/renderer.c:70-90 | The compute pass writes only the current texture: a pixel in the hit mask gets the shader's lit colour and every other pixel stays. The other texture, the index and the flag are untouched |
| Renderer.DispatchRunsPixel | source/renderer.h:8-38 | With one invocation per pixel of the width × height grid, and the shader's hit test as the mask, the dispatched texture holds at every pixel what the shader's `main` stores there, for any value of the previous-position uniform (the origin at run time) |
| Renderer.ClearTimesParity | source/renderer.c:141-147 | After n clear requests on texture 0, the current texture is n mod 2 and the flag is up once n > 0 |
| Renderer.TwoClearsBlankOnce | source/renderer.c:101-147 | Two clears before one render blank only the texture that is non-current at render time. The flag does not count requests |
| Renderer.DispatchThenClear | source/renderer.c:70-147 | A clear after a dispatch switches away from the texture just drawn, and the next render blanks it |
| PyWire.Trunc | test/font_rendering.py:274-275 | `int()` of a float truncates toward zero. The result is within 1 of the input and never farther from zero |
| PyWire.PackHalves | test/write.py:38-41 | For 16-bit coordinates, `(x << 16) \| y` puts x in the high half and y in the low half of a value that fits 32 bits. Both halves can be read back |
| PyWire.PackTooWide | test/write.py:38-41 | An x of 17 bits or more packs to a value that no longer fits 32 bits |
| PyWire.CountTypeAppend | test/write.py:21 | Counting records of one type is additive over concatenation |
| PyWire.ToBytes | test/write.py:29-30 | `__bytes__` succeeds exactly when the type fits a byte and the value fits 32 bits. It then yields the type byte followed by the value, big-endian |
| PyWire.ToBytesDecodes | test/write.py:24-30 | The renderer's decoder reads back the type and the value that `__bytes__` wrote |
| PyWire.Encode | test/write.py:227-231 | The file is 5 bytes per record. Writing succeeds exactly when every record encodes, and otherwise the first overflow stops it |
| PyWire.EncodeRecords | test/write.py:227-231 | Record k of the list sits at bytes 5k to 5k+5 of the file |
| WriteScript.HelpersDecode | test/write.py:33-51 | Each helper appends exactly one record. The decoder reads it as the intended kind: clear, power off and power on with value 0, and a move to (x, y) for 16-bit coordinates |
| WriteScript.WideCoordsOverflow | test/write.py:29-41 | An x of 17 bits or more makes `__bytes__` raise for that record |
| WriteScript.SegmentsAt | test/write.py:91-101 | Point i is preceded by POWER_OFF if it is the first point and by POWER_ON otherwise, and is followed by its COORDS record |
| WriteScript.Circle | test/write.py:88-101 | `circle` keeps the records already dumped and appends two per point. The beam is off before the first point and on before every later one, and each point's COORDS carries the point |
| FontRendering.GlyphCounts | test/font_rendering.py:262-278 | One glyph yields one COORDS record per point and one power record per change of beam state, and leaves the tracked state at the last point's |
| FontRendering.GlyphDraws | test/font_rendering.py:262-278 | Replayed from the tracked state, a glyph's records draw the j-th point, as the COORDS record of its placed coordinates, while the beam is in that point's own state; every POWER_ON or POWER_OFF is a real switch; and the beam ends in the state the renderer tracks |
| FontRendering.Expected | test/font_rendering.py:262-278 | What a glyph should draw: its k-th entry is the COORDS record of point k's placed coordinates, paired with point k's beam state |
| FontRendering.ReplayAppend | test/font_rendering.py:260-281 | Replaying concatenated records is replaying the first part and then the second from the beam state the first part leaves |
| FontRendering.RenderCoordsCount | test/font_rendering.py:260-281 | A render has exactly as many COORDS records as there are glyph points in the characters the font knows |
| FontRendering.UnknownEmitsNothing | test/font_rendering.py:260-281 | Characters the font lacks emit nothing. A newline the font lacks only turns the tracked beam state off, without sending POWER_OFF |
| FontRendering.Render | test/font_rendering.py:257-284 | `render` returns with the line counter back at 0 and the beam state carried over. It yields exactly one COORDS record per known glyph point. On text without a newline, the records draw every glyph point at its placed coordinates in its own beam state, with no redundant power record |
| FontRendering.OneLineDraws | test/font_rendering.py:257-284 | On text without a newline, replaying `render`'s records from the tracked state draws exactly the glyph points of the known characters, in order and each in its own beam state, and ends in the tracked state |
| FontRendering.NewlineLeavesBeamOn | test/font_rendering.py:260-281 | After a glyph that ends with the beam on, a newline the font lacks and a glyph that starts with the beam off, the first point of the second glyph is drawn with the beam on, though that point is off |
| FontRendering.NewlineCounterexample | test/font_rendering.py:260-281 | With glyphs F = off, on and A = off, the text "F\nA" draws A's first point lit |
| FontRendering.IntendedAgreesWithoutNewline | test/font_rendering.py:260-281 | On text without a newline, the corrected loop emits exactly the records of the loop as written |
| FontRendering.CharDraws | test/font_rendering.py:261-281 | In the corrected loop, one character draws its glyph as expected and leaves the device in the state the loop carries on with, the newline's POWER_OFF included |
| FontRendering.RenderIntendedDraws | test/font_rendering.py:260-281 | With a POWER_OFF sent at a newline while the beam is on, any text draws every glyph point of every known character at its placed coordinates in its own beam state, with no redundant power record, and the device ends in the tracked state |
| FontRendering.Send | test/font_rendering.py:293-297 | `send_instructions` writes the rendered records unchanged and then exactly one more POWER_OFF |
| Pong.EventFromBytes | test/games/pong.py:62-66 | `Event.from_bytes` takes the type from the first byte. The value is whatever the remaining bytes hold, big-endian, so it is bounded by their width |
| Pong.EventToBytes | test/games/pong.py:68-69 | `__bytes__` succeeds exactly when the type fits a byte and the value fits 64 bits, and then yields a 9-byte record |
| Pong.EventRoundTrip | test/games/pong.py:62-69 | Parsing what `__bytes__` wrote gives the same event back |
| Pong.EventAgreesWithRenderer | test/games/pong.py:62-66 | On a record the renderer writes, the game reads the renderer's kind code and value |
| Pong.Remove | test/games/pong.py:118-119 | `list.remove` drops exactly one occurrence of the value and keeps every other element |
| Pong.RemoveFromSet | test/games/pong.py:118-119 | On a duplicate-free list, removing v leaves exactly the other codes, still without duplicates |
| Pong.ApplyEventKeySet | test/games/pong.py:114-119 | The held-key list never holds a code twice. A press (the function `Pong.ApplyEvent`) adds its code, a release removes it, and every other event leaves the list alone |
| Pong.ProcessEvents | test/games/pong.py:100-121 | The loop stops right after the first FRAME_FINISHED chunk, and never before it. Without one it consumes every chunk it is given |
| Pong.ProcessEventsKeepsSet | test/games/pong.py:100-121 | Processing a frame's events keeps the held-key list free of duplicates |
| Pong.Initial | test/games/pong.py:84-97 | Both paddles start inside the arena's vertical range |
| Pong.Bounce | test/games/pong.py:133-141 | A ball that does not overlap a paddle is untouched. One that does has its horizontal velocity reversed and is moved back against its direction of travel, out of the paddle, at the same height |
| Pong.ClampPaddle | test/games/pong.py:169-173 | A paddle's y always ends in [0, ARENA_HEIGHT - PADDLE_HEIGHT], and one already inside stays put |
| Pong.Update | test/games/pong.py:123-179 | After a frame the paddles are inside the arena at their fixed x, and the ball's speed per axis is unchanged. A ball out on the left scores for the right, one out on the right scores for the left, and either is recentred. Escape resets both scores and the ball |
| Pong.PlayScores | test/games/pong.py:123-179 | Over the frames of the game loop (the function `Pong.Play`), without escape neither score ever drops, each frame adds at most one point in total, and the ball's speed per axis never changes |
| Pong.ClampAxis | test/games/pong.py:195-204 | A screen coordinate is `int` of the position, clamped to [0, ARENA_WIDTH]. The bound is ARENA_WIDTH for y as well |
| Pong.ScreenRecordDecodes | test/games/pong.py:195-206 | Every point the game draws packs into a COORDS record whose halves are the clamped coordinates |
| Pong.Insert | test/games/pong.py:209 | `list.insert(i, v)` places v at i, or at the end when i is past it, and shifts the rest one place up |
| Pong.Outline | test/games/pong.py:208-211 | An outline is its first COORDS, then POWER_ON, then the remaining COORDS in order, then POWER_OFF |
| Pong.RenderPaddle | test/games/pong.py:184-213 | A paddle is drawn as 8 on-screen records: the top-left corner, POWER_ON, the other corners round to the top-left again, then POWER_OFF |
| Pong.RenderBall | test/games/pong.py:215-239 | The ball outline has one on-screen COORDS per given point, with POWER_ON after the first and POWER_OFF at the end |
| Pong.RenderArena | test/games/pong.py:241-254 | The centre line is 108 COORDS records at x = 960 and y = 0, 10, …, 1070, with POWER_ON after the first and POWER_OFF at the end |
| ImageConverter.FlipContour | tools/img2mv/img2mv.py:57-61 | Each point keeps its x, and its y is mirrored: old y plus new y equals the image height |
| ImageConverter.Flatten | tools/img2mv/img2mv.py:51-62 | `flatten_frames` keeps the number of contours and points and mirrors every point's y about the image height |
| ImageConverter.FlattenTwice | tools/img2mv/img2mv.py:51-62 | Flipping twice gives back the original contours |
| ImageConverter.PointRecordsPlain | tools/img2mv/img2mv.py:81-87 | Once the pen is on, each point yields exactly its own COORDS record |
| ImageConverter.ContourRecords | tools/img2mv/img2mv.py:77-87 | A contour starts with POWER_OFF. A non-empty one continues with its first COORDS, then POWER_ON, then the remaining points in order |
| ImageConverter.ContourRecordCounts | tools/img2mv/img2mv.py:77-87 | A contour yields one POWER_OFF, one POWER_ON if it has points, and one COORDS per point |
| ImageConverter.ConvertCounts | tools/img2mv/img2mv.py:74-89 | The output of `ImageConverter.Convert` has one POWER_OFF per contour, one POWER_ON per non-empty contour and one COORDS per point, and nothing else |
| ImageConverter.CoordsRecordDecodes | tools/img2mv/img2mv.py:83-84 | A 16-bit point packed into a COORDS record is read back as the same point |
| ImageConverter.PointRecordsDecode | tools/img2mv/img2mv.py:81-87 | Reading back the records of a contour of 16-bit points gives the contour. The interleaved POWER_ON carries no point |
| ImageConverter.ContourRecordsDecode | tools/img2mv/img2mv.py:77-87 | Reading back one contour's records gives exactly its points |
| ImageConverter.ConvertDecodes | tools/img2mv/img2mv.py:74-89 | Reading back the whole conversion (`ImageConverter.Convert`) gives every point of every contour, in order, when all coordinates fit 16 bits |
| VideoConverter.FlattenFrames | tools/vid2mv/vid2mv.py:153-167 | Every frame is flipped as in the image converter, and frame, contour and point counts are kept |
| VideoConverter.FloorDiv | tools/vid2mv/vid2mv.py:179 | Python's `//` rounds toward negative infinity, for either sign of the divisor |
| VideoConverter.Every | tools/vid2mv/vid2mv.py:180 | `c[::k]` has ⌈len / k⌉ elements |
| VideoConverter.EveryAt | tools/vid2mv/vid2mv.py:180 | Element i of `c[::k]` is element i·k of c |
| VideoConverter.Reverse | tools/vid2mv/vid2mv.py:180 | The backwards slice a negative step takes is the contour in reverse order |
| VideoConverter.LimitContour | tools/vid2mv/vid2mv.py:177-182 | A contour within the limit is kept as it is. The thinning raises only for limit 0 (`//` by zero), or for a negative limit on an empty contour (slice step 0) |
| VideoConverter.LimitContourBound | tools/vid2mv/vid2mv.py:177-182 | With a positive limit, a long contour becomes every (len // limit)-th point. It never grows, but may keep up to 2·limit − 1 points rather than `limit` |
| VideoConverter.LimitKeepsAlmostTwice | tools/vid2mv/vid2mv.py:178-180 | A contour of 2·limit − 1 points exceeds the limit, yet comes back whole |
| VideoConverter.LimitCounterexample | tools/vid2mv/vid2mv.py:178-180 | With limit 2, a 3-point contour is kept in full |
| VideoConverter.LimitContourIntended | tools/vid2mv/vid2mv.py:170-184 | The corrected thinning agrees with `limit_frames` within the limit and on every error case |
| VideoConverter.LimitIntendedBound | tools/vid2mv/vid2mv.py:170-184 | With the step ⌈len / limit⌉, a positive limit is never exceeded, the first point is kept, and point i is the (i·step)-th |
| VideoConverter.LimitFrame | tools/vid2mv/vid2mv.py:175-183 | A frame is thinned contour by contour, and succeeds exactly when every contour does |
| VideoConverter.LimitFrames | tools/vid2mv/vid2mv.py:170-184 | All frames are thinned in order, and the step succeeds exactly when every frame does |
| VideoConverter.LimitFramesBound | tools/vid2mv/vid2mv.py:170-184 | With a positive limit nothing raises, no contour grows, and a thinned contour keeps at most 2·limit − 1 points |
| VideoConverter.Upscale | tools/vid2mv/vid2mv.py:187-209 | Every coordinate is multiplied by the factor, and the shape of the frame is kept |
| VideoConverter.UpscaleInjective | tools/vid2mv/vid2mv.py:187-209 | With a non-zero factor, different frames never upscale to the same frame |
| VideoConverter.ConvertToInstructions | tools/vid2mv/vid2mv.py:212-235 | The frame's records come first, unchanged. A frame shorter than `instructions_per_frame` is padded to exactly that length with one POWER_OFF and then COORDS records of value 0, and a longer one is not cut |
| InlineWorker.NoOccurrenceUnchanged | tools/inline_worker.py:49 | `str.replace` leaves a string without the pattern unchanged |
| InlineWorker.ReplaceLeftmost | tools/inline_worker.py:49 | `str.replace` keeps the text before the leftmost occurrence, puts the replacement there, and carries on after the occurrence |
| InlineWorker.SingleCharReplace | tools/inline_worker.py:12-17 | Replacing a one-character pattern is the same as mapping each character on its own |
| InlineWorker.EscapeCharLength | tools/inline_worker.py:12-17 | Escaping a character adds exactly one character per occurrence |
| InlineWorker.EscapeCharPreceded | tools/inline_worker.py:12-17 | After escaping, every occurrence of the character has a backslash directly before it |
| InlineWorker.UnescapeEscapeChar | tools/inline_worker.py:12-17 | Dropping the backslash before each escaped character recovers the original text |
| InlineWorker.EscapeProperties | tools/inline_worker.py:12-17 | `escapeIt` and `fixDollarSign` each add one backslash directly before every backtick or dollar sign, and nothing else. Both can be undone, and text without that character is left as it was |
| InlineWorker.Target | tools/inline_worker.py:46 | The loader call the script searches for is never empty, so `str.replace` is well defined on it |
| InlineWorker.InlineReplacesTargets | tools/inline_worker.py:45-49 | `InlineWorker.Inline` writes a runtime script without the loader call back unchanged. Otherwise the text before the first call is kept and the call becomes the Blob URL over the escaped worker |
| InlineWorker.InlinedTextCounterexample | tools/inline_worker.py:41-47 | A worker holding a backslash then a backtick is escaped to `\\` then a bare backtick, which closes the template literal inside the worker text |
| InlineWorker.CorrectedIsTemplateEscape | tools/inline_worker.py:12-17 | Escaping backslashes first, then backticks, then dollar signs puts one backslash before each of the three characters |
| InlineWorker.CookTemplateEscape | tools/inline_worker.py:47 | A template literal whose body has a backslash before every backslash, backtick and dollar sign reads back as the original text |
| InlineWorker.InlinedTextCorrectedReproduces | tools/inline_worker.py:41-47 | With backslashes escaped too, the inlined literal stands for exactly the worker text, whatever the worker contains |

## Left out

- Window, GL, GPU and event-loop plumbing is left out. It is foreign code with no logic of its own. The compute dispatch is modelled as a hit mask applied to the current texture, and `Renderer.DispatchRunsPixel` relates it to the per-pixel rule (`Shader`).
- Textures are modelled as ordinary data. `Renderer` keeps the two frame textures as pixel sequences inside its datatype, not as ghost state updated by GL calls. The glClearColor call, the primary-colour uniform and the workgroup dispatch at source/renderer.c:81-88 are modelled only as the palette upload (`Renderer.Channel`) and the hit-mask dispatch.
- Renderer.DispatchRunsPixel: source/renderer.c:81-86 uploads the primary and secondary colours, the position count, the gun position and the power, but never `electron_gun_previous_position`. That uniform therefore keeps its initial value (0, 0), and every dispatch lights the segment from the origin to the gun. The model keeps `previous` a parameter, so it does not promise that run-time value; it holds for the origin as for any other value.
- Renderer.Dispatch: the hit mask is a parameter. The function does not compute the shader's hit test itself; the two agree only under the hypotheses of `Renderer.DispatchRunsPixel`, whose distance witnesses come from the caller.
- Renderer.Dispatch takes the beam power as a real parameter. source/renderer.c passes `electron_gun->powered_on` through `glUniform1i` into the float uniform `electron_gun_power`, and what the driver then reads is not modelled.
- Electron.ComputeWorkgroupCount models the wrapping add of a release build. A debug build panics on the overflow for a size above u32::MAX − 7; that panic is not modelled.
- The rest of src/gfx/electron.rs is left out: pipeline and bind-group creation, texture upload and render passes. It is GPU plumbing around the data preparation that `Electron` models.
- `magnitude` is not axiomatised, and `sqrtf` is not modelled. Every function that needs a length takes it as a witness constrained by `Vec.IsMagnitude`.
- Floating-point rounding is not modelled; floats are reals. Rust `as u32` on floats is modelled as a saturating floor.
- Gun.NextPower: the C `power` field is an `int8_t`, but the model keeps power as a real, so the truncation of every assignment to a whole number is not modelled. Nor is the out-of-range store: source/gun.c:100-111 stores `power + power_increase * delta` (or minus the depletion) before testing the cap and the floor, and a value outside [-128, 127] converted to `int8_t` is undefined behaviour (section 6.3.1.4 of ISO C11). Power 100 with a step of 30 stores 130. Gun.PowerIsMonotone and the [0, 100] bound therefore hold for the real-valued ramp, and for the C code only while each step keeps the sum within the `int8_t` range.
- CInstruction.CoordsToU32: shifting a negative `x` left is undefined behaviour in C. The model takes the two's-complement result that compilers produce.
- FrameLoop.ProcessModern counts with an unbounded integer. In C, the loop counter at source/loop.c:172 is an `int32_t` compared with a 64-bit budget, so a budget of 2^31 or more would overflow it; that overflow is not modelled.
- `atoi`, `sscanf("%x")` and Rust's `str::parse` are library calls. They are parameters of `CConfig.Read` and `Args.ReadArgs`.
- `exit` in source/config.c is a result variant.
- The help text printed by `-h` is left out.
- source/loop.c:25 calls `mv_create_electron_gun` with no arguments, but source/gun.c:15 takes three. source/loop.c:182 calls `mv_update_electron_gun` with one argument, but source/gun.c:65 takes two. The gun update is therefore an opaque step of the trace (`Trace`), not a call of `Gun.Update`.
- source/renderer.c:34-36 uses `frame_texture[2]` and `current_texture`, which the struct in source/renderer.h:122-135 lacks. The model follows renderer.c.
- src/main.rs:141 writes `config.pipe`, which `Config` in src/config.rs:57-71 lacks. `Args` keeps a `pipe` field so that the flag can be modelled.
- src/context.rs calls `ElectronRenderer::new` with a different argument list than src/gfx/electron.rs declares. Only the data preparation of the renderer is modelled.
- `Color::to_linear` is left out, because it is floating-point gamma arithmetic.
- The fps and delta-seconds accessors of `FrameTimer` are left out. They are divisions of floats.
- Timing.TargetFrameTime rounds the exact quotient 10^9 / fps. The f64 rounding of `1.0 / fps` before `from_secs_f64` is not modelled, and an exact half-nanosecond tie rounds up.
- `Duration::from_secs_f64` panics on the infinite frame time of a zero target rate. That panic is the error value `ZeroTargetRate` of `Timing.Delay`.
- The Windows pipe reader and default pipe path (source/config.h:24) are left out, as platform plumbing.
- `mv_poll_pipe` and `mv_destroy_pipe` in source/pipe.c are left out. They open and close files, and they call a different `mv_process_instruction` signature.
- `mv_set_line_width` and its legacy version only query and set GL state, so they are left out.
- Destroying a display, gun, pipe or renderer only frees memory, so the destroy functions are left out.
- CInstruction.Process: `mv_add_point` is declared at source/display.h:45 but defined in no file of the repository. The model takes it to append one point to an unbounded list. The 4096-slot cap and the even-count discipline of `Display` are not applied to this list.
- In the C `mv_process_instruction`, the CLEAR case has no `break`, so it falls through into SET_POINT (source/instruction.c:24-27). `CInstruction.Process` models this as written. It is not listed as a finding, because nothing in the repository says whether the extra point is intended.
- Logging (`log::warn!`, `log::error!`, `printf`) is left out.
- FontRendering.Render: the drawn-state guarantees replay the records from the state the renderer tracks. The device's real beam state when a render starts is not modelled: `FontRenderer` starts with `on = False`, while the Rust `Processor::new` starts powered on, and `send_instructions` ends every frame with POWER_OFF.
- In test/write.py, `smiley`, `wave`, `radar_line`, `hello_world`, `read_conf`, `write_instructions`, `clear_instructions` and `main` are left out. They are fixed drawings built from trigonometry, configuration reading or file I/O. The bytes a list of records becomes are `PyWire.Encode`.
- `circle` in test/write.py, and `render_ball` in test/games/pong.py, take the points they draw as a parameter. The `sin`/`cos` that produce those points are left out.
- In test/games/pong.py, `render_score`, the assembly of `render_game`'s record list, the threads and the main loop are left out. They are text rendering through the font test, socket I/O and timing.
- Pong.ClampAxis clamps `y` to `ARENA_WIDTH`, as the source does, not to `ARENA_HEIGHT`.
- Pong.ProcessEvents models the source re-parsing `data` rather than `event` at test/games/pong.py:113. With one record per read the two agree, and the model reads one record per chunk.
- tkinter and numpy are left out. numpy's int32 arithmetic on contour points is modelled on unbounded ints, because pixel coordinates stay far below 2^31.
- In tools/vid2mv/vid2mv.py, `main`, argument reading, `video_to_frames`, `downscale`, `threshold`, `find_contours` and the sorting in `extract_countours_from_temp_dir` are left out. They are OpenCV, ffmpeg and file-system calls; the converter starts from each frame's contours.
- In tools/img2mv/img2mv.py, `read_args` (the argv parity check) and `main`'s file I/O are left out.
- In tools/inline_worker.py, `main`'s argv handling and file reading and writing are left out. The runtime and worker texts are parameters.
- InlineWorker.Cook reads only the escapes `\\`, `` \` `` and `\$` of a JavaScript template literal. Any other escape is the error `OtherEscape`, so the reproduction lemmas cover only worker texts whose escaped form uses those three. It also leaves out the conversion of CR and CRLF to LF that cooking a template literal performs; `main` reads the worker in Python text mode, which already turns both into LF, so no text the script reads holds a CR.
- InlineWorker.ReplaceAll needs a non-empty pattern. Python's `str.replace` with an empty pattern inserts the replacement between characters, but the script only replaces the non-empty `locateFile(...)` call.

## Findings

| source | as written | input that shows it | evidently intended | confidence | as-written member | corrected member |
|---|---|---|---|---|---|---|
| source/instruction.c:9-12 | `mv_coords_to_u32` ORs `x << 16` with the sign-extended `y`, so any negative `y` sets all 16 high bits | the point (1, -1) packs to 0xFFFFFFFF and reads back as (-1, -1) | `y` masked to 16 bits, so that `>> 16` and `& 0xFFFF` recover both coordinates | not executed | CInstruction.CoordsCounterexample, CInstruction.NegativeYOverwritesX | CInstruction.CoordsMaskedRoundTrip |
| source/legacy/display.c:75-84 | `mv_draw_line_legacy` only refuses a full display, then writes two slots | 4095 single points from `mv_add_point_legacy`, then one line: the second write lands at index 4096, past the array | refuse the line unless both points fit | not executed | LegacyDisplay.DrawLineOverflowReachable | LegacyDisplay.DrawLineAgreesBelowLastSlot |
| source/loop.c:180-192 | the sample of instruction i (counting from 1) is stored at `positions[i]` while `num_positions` counts from 0, so the renderer reads slot 0 from an earlier frame and misses the newest sample | two slots per frame and one instruction with sample 7: the renderer is given [stale slot 0] instead of [7] | append at `num_positions`, as source/support/win96.c does | not executed | FrameLoop.ViewAsWrittenCounterexample, FrameLoop.ViewAsWrittenExactOnlyWhenConstant | FrameLoop.ProcessModernCorrected |
| source/loop.c:184-190 | with one instruction per frame, the shift runs while `num_positions` is 0, and the bound `num_positions - 1` wraps to 2^32 − 1 | `instruction_per_frame` = 1 and one instruction in the pipe | evict only once the window holds samples | not executed | FrameLoop.ProcessModern | FrameLoop.ProcessModernCorrected |
| source/config.c:25-41 | the default configuration sets neither the executor's instructions per frame and frame rate nor the gun's radius and dim factor, so they are 0 | any command line `mv_read_config` accepts, e.g. no options at all | the defaults of source/config.h:13-21: 1024 instructions per frame, 60 frames per second, radius 1, dim factor 0.05 | not executed | CConfig.ReadGivesNoInstructionBudget | CConfig.ReadIntendedBudget, CConfig.DefaultIntended |
| tools/vid2mv/vid2mv.py:170-184 | `limit_frames` thins a long contour with the step `len // limit`, which keeps up to 2 · limit − 1 points | a contour of 3 points with limit 2: the step is 1, and all 3 points are kept | a step of ⌈len / limit⌉, so that at most `limit` points remain in each contour. The limit applies per contour, so a frame of many contours may still exceed it in total | not executed | VideoConverter.LimitCounterexample, VideoConverter.LimitKeepsAlmostTwice | VideoConverter.LimitIntendedBound |
| tools/inline_worker.py:12-17 | the worker text is escaped for a JavaScript template literal by escaping backticks and dollar signs, but not backslashes | a worker holding a backslash followed by a backtick becomes `\\` then a bare backtick, which closes the literal early | escape backslashes first, then backticks and dollar signs | not executed | InlineWorker.InlinedTextCounterexample | InlineWorker.InlinedTextCorrectedReproduces |
| test/font_rendering.py:279-281 | at a newline `render` sets `self.on = False` without sending POWER_OFF, so the device keeps the beam on while the renderer believes it off | the text "F\nA" with the font of the file: F ends with its beam on, and A starts with an off point, so no record switches the beam off and the move to A's first point is drawn lit | send POWER_OFF at a newline when the beam is on, so that the device's state stays the tracked one | not executed | FontRendering.NewlineLeavesBeamOn, FontRendering.NewlineCounterexample | FontRendering.RenderIntendedDraws |
