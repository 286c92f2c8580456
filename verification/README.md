# tui_lib in Dafny

A model of the core of `tui_lib`, a small Rust terminal-UI library. It covers two halves.

**The input-event decoder.** It turns the raw characters a terminal sends into one `TuiEvents` value per call.
- On Unix (`InputParser`, `UnixTuiIo`), the first byte is classified.
- An escape runs a small CSI state machine: `ESC [ A/B/C/D` are the cursor keys and `ESC [ 3 ~` is Delete.
- `ESC [ <` starts an xterm SGR (mode 1006) mouse report `Cb ; x ; y M|m`, decoded by the mouse grammar (`MouseInput`).
- On Windows (`WindowsTuiIo`), console key records are dispatched on the virtual-key code first and the character second. The escape path there accepts only `ESC [ <`.
- The byte source is a finite buffer: `seq<ByteChar>`, where a `ByteChar` is a `char` below 256. Every parser threads the buffer through and returns what is left.
- After an `Error` or `Ignore` on the escape path, the rest of the buffer is drained so that the next call starts afresh.

**The rendering side, as pure string functions.**
- SGR codes for colours and the five `ThreeBool` attributes, with the session's ambient settings as fallback (`TerminalCodes`, `Fonts`, `TuiEnums`).
- The cursor-position report parser, and the `ESC[y;xH` cursor move (`CursorPosition`).
- `CursorNav` codes (`TuiEnums`).
- The `StringPlus` builder and the DEC Special Graphics table (`StyledText`).
- The chunks `write`, `print` and `println` would emit (`TerminalOutput`).

An SGR interpreter (`Sgr`) gives the rendering side an independent meaning. It is a reference reading of ECMA-48 section 8.3.117 with the bright 90–97/100–107 extension and the ISO/IEC 8613-6 `38;5`, `38;2`, `48;5` and `48;2` extended colours. The generated codes are proved to set exactly the intended rendition. Likewise, `InputParser.Encode` encodes events in the terminal's format, and the decoders are proved to invert it. The one place it follows the decoder rather than xterm is mouse motion, whose report it ends in `m`; see the last decision below.

Modelling decisions that follow the code where a reader might expect otherwise:
- The italic attribute falls back to the ambient *underline* setting (`src/tui_terminal.rs:159`). This is modelled as written; `TerminalCodes.ItalicsFollowsUnderline` states it.
- `FontSettings` in `src/font_settings/mod.rs` has no `is_italics` field, but `src/tui_terminal.rs` and `src/string_plus.rs` read and set one. The model includes it, with default `ThreeBool::Default`.
- A cursor-position reply whose second byte is not `[` is reported as unexpected input with `ESC` as the expected byte (`src/tui_terminal.rs:211-217`). This is modelled as written.
- The `TuiEvents` datatype includes the mouse variants, each carrying a `(u16, u16)` position. `src/tui_events.rs` omits them, but the parsers construct them.
- `get_u16` is modelled with an overflow check that works; see "## Findings". `MouseInput.GetU16From` is the corrected definition the rest of the model uses.
- A failed Unix blocking read leaves the byte at 0 (`src/tui_io/unix_tui_io.rs:65-72`). That decodes to `Ignore`, so `read_parsed` loops. In the finite-buffer model, an empty buffer therefore means "no event yet": `UnixTuiIo.ReadParsed` returns `None`.
- The same failed read makes a cut-short cursor-position reply on Unix an unexpected-input error that reports a NUL byte, not an `IOError`. `CursorPosition` takes the platform as a parameter: on Windows a read that returns nothing is an `IOError`.
- The mouse decoder reports motion (`Cb` = 35) only when the report ends in `m` (`src/tui_io/mouse_input.rs:43-46`), whereas xterm ends a motion report in `M`. The model follows the code: `MouseInput.XtermMotionIsError` shows that an xterm motion report decodes to `Error`, and the `MouseMove` round trip is stated for the `m` form the decoder accepts.

## Model

| member | source | states |
|---|---|---|
| InputParser.ParseInput | src/tui_io/input_parser.rs:6-30 | any byte other than ESC is decoded by the byte classification alone and consumes nothing more; the remaining buffer never grows |
| InputParser.ReadableBytes | src/tui_io/input_parser.rs:11-27 | every byte 0x20..0x7D decodes to `AsciiReadable` of itself, except space, which decodes to `Space` |
| InputParser.ControlBytes | src/tui_io/input_parser.rs:14-26 | bytes 1..26 other than tab, LF and CR decode to `Control(b + 0x40)`, always a letter 'A'..'Z' |
| InputParser.SpecialBytes | src/tui_io/input_parser.rs:11-27 | DEL is Backspace, LF and CR are Enter, tab is Tab, NUL is Ignore, and '~', bytes 0x1C..0x1F and bytes >= 0x80 are `Other` |
| InputParser.ClassifyEncode | src/tui_io/input_parser.rs:11-27 | decoding the encoding of any single-byte event gives that event back |
| InputParser.EncodeClassify | src/tui_io/input_parser.rs:11-27 | for every byte except ESC, LF and NUL, encoding its decoded event gives the byte back |
| InputParser.Encode | src/tui_io/input_parser.rs:6-122 | an event's encoding starts with ESC exactly when the event is a multi-byte sequence |
| InputParser.LoneEscape | src/tui_io/input_parser.rs:32-34 | ESC with nothing pending is the Escape key |
| InputParser.EscapeThenOther | src/tui_io/input_parser.rs:35-45 | ESC followed by anything but '[' is an Error and the whole buffer is drained |
| InputParser.CsiKeys | src/tui_io/input_parser.rs:50-63 | `ESC [ A/B/C/D` are Up, Down, Right and Left and `ESC [ 3 ~` is Delete, each leaving the rest untouched; `ESC [ 3` without '~', and any other byte after `ESC [`, is an Error with the buffer drained |
| InputParser.EscapeMouse | src/tui_io/input_parser.rs:38-45 | after `ESC [ <` the result is the mouse grammar's; an Error or Ignore there drains the buffer, any other result keeps the bytes after the report |
| InputParser.DrainResynchronises | src/tui_io/input_parser.rs:38-45 | whenever the escape path yields Error or Ignore, nothing is left in the buffer |
| InputParser.ReleaseDiscardsQueued | src/tui_io/input_parser.rs:38-45 | a button release yields Ignore and discards whatever was queued behind it, well-formed events included |
| InputParser.HandleEscapeInputS1 | src/tui_io/input_parser.rs:31-46 | an Error or Ignore from the escape path always comes with an empty remaining buffer |
| InputParser.EscapeReportDecodes | src/tui_io/input_parser.rs:65-122 | `ESC [ <` followed by any well-formed mouse report decodes to exactly that event and leaves the bytes after it |
| InputParser.DecodeEncoded | src/tui_io/input_parser.rs:6-64 | decoding the encoding of any event, followed by any further input, gives the event back and leaves exactly that further input; a lone Escape needs an empty tail |
| InputParser.DecodeEncodedMouse | src/tui_io/input_parser.rs:65-122 | the decoder inverts the mouse-report encoder for every mouse event |
| InputParser.DecodeEncodedCsi | src/tui_io/input_parser.rs:50-63 | the decoder inverts the encoder for the four arrow keys and Delete |
| InputParser.EncodeIsReport | src/tui_io/input_parser.rs:65-122 | a mouse event's encoding is `ESC [ <` followed by its SGR mouse report |
| InputParser.MouseAfterPrefix | src/tui_io/input_parser.rs:48-61 | a mouse event is only ever produced after the prefix `[ <` |
| InputParser.EscapeMouseSound | src/tui_io/input_parser.rs:65-122 | whenever the escape path yields a mouse event, the input was `[ <` plus a well-formed report of exactly that event, followed by the remaining buffer |
| InputParser.EscapeKeySound | src/tui_io/input_parser.rs:31-64 | whenever the escape path yields a key, the input was exactly that key's encoding followed by the remaining buffer |
| InputParser.HandleEscapeInputS2 | src/tui_io/input_parser.rs:48-63 | never consumes more than the buffer holds; `InputParser.CsiKeys`, `EscapeMouse` and `EscapeKeySound` carry its meaning |
| InputParser.EscapeSound | src/tui_io/input_parser.rs:31-122 | every successful escape-path result, key or mouse, is explained by its encoding followed by the remaining buffer |
| MouseInput.GetU16From | src/tui_io/mouse_input.rs:65-84 | never consumes more than the buffer holds; `MouseInput.GetU16FromSpec`, `GetU16Decodes`, `GetU16Overflow` and `GetU16Sound` carry its meaning |
| MouseInput.GetU16 | src/tui_io/mouse_input.rs:65-84 | the parser started from 0; the same lemmas carry its meaning |
| MouseInput.GetU16FromSpec | src/tui_io/mouse_input.rs:65-84 | the number parser succeeds exactly when the maximal digit run is followed by a terminator and its value fits in 16 bits; it then returns that value and the terminator, and consumes exactly through the terminator |
| MouseInput.CorrectedStep | src/tui_terminal.rs:225-231 | each digit is accepted only if `10 * acc + digit` stays within 65535; otherwise the parse fails |
| MouseInput.GetU16Decodes | src/tui_io/input_parser.rs:124-143 | a decimal numeral of value at most 65535 followed by a non-digit parses to exactly its value and terminator |
| MouseInput.GetU16Overflow | src/tui_io/input_parser.rs:124-143 | a numeral whose value exceeds 65535 yields None, never a wrapped value |
| MouseInput.GetU16Sound | src/tui_io/mouse_input.rs:65-84 | every successful parse was a numeral of the returned value, then the returned terminator, then the remaining buffer |
| MouseInput.GetU16AsWrittenAgrees | src/tui_io/mouse_input.rs:65-84 | whenever the corrected parser succeeds, the parser as written returns the same result, so the two agree on all values up to 65535 |
| MouseInput.GetU16AsWrittenWraps | src/tui_io/input_parser.rs:131-135 | on "99999;" the parser as written returns 34463, while the corrected one returns None |
| MouseInput.CoordinatesDecode | src/tui_io/input_parser.rs:145-156 | `; x ; y t`, with x and y at most 65535, parses to exactly `(x, y)` and `t` and leaves the bytes after `t` |
| MouseInput.CoordinatesSound | src/tui_io/mouse_input.rs:86-97 | every successful coordinate parse was `;`, a numeral of x, `;`, a numeral of y, and the terminator |
| MouseInput.CoordinatesShape | src/tui_io/mouse_input.rs:86-97 | without a leading ';', or when x is ended by anything but ';', the coordinates are None |
| MouseInput.GetCoordinates | src/tui_io/mouse_input.rs:86-97 | never consumes more than the buffer holds; `MouseInput.CoordinatesDecode`, `CoordinatesSound` and `CoordinatesShape` carry its meaning |
| MouseInput.MouseReportDecodes | src/tui_io/mouse_input.rs:6-63 | every well-formed report of a click, drag, move or scroll decodes to exactly that event and leaves the bytes after it |
| MouseInput.ButtonReleaseIgnored | src/tui_io/mouse_input.rs:6-22 | a button selector 0, 1 or 2 with valid coordinates ending in 'm' yields Ignore |
| MouseInput.DispatchWrongFinal | src/tui_io/mouse_input.rs:6-63 | valid coordinates with the wrong terminator for the selector yield Error |
| MouseInput.WrongFinalIsError | src/tui_io/mouse_input.rs:6-63 | a whole report with the wrong final byte is an Error; 'm' after a button selector is excepted, since it means a release |
| MouseInput.XtermMotionIsError | src/tui_io/mouse_input.rs:43-46 | an xterm motion report `35;x;yM`, which ends in 'M', decodes to Error, since the decoder reports motion only for a final 'm' |
| MouseInput.UnknownSelectorIsError | src/tui_io/mouse_input.rs:25 | an empty buffer, or a first selector byte outside 0, 1, 2, 3 and 6, yields Error |
| MouseInput.SecondSelectorIsError | src/tui_io/mouse_input.rs:29-63 | after '3' a second byte outside 2..5, after '6' one outside 4..5, or a missing second byte, yields Error |
| MouseInput.BadCoordinatesIsError | src/tui_io/mouse_input.rs:6-63 | a valid selector followed by unparsable coordinates yields Error |
| MouseInput.HandleMouseEvents | src/tui_io/mouse_input.rs:6-27 | the mouse grammar yields only a mouse event, Ignore or Error |
| MouseInput.HandleMouseMoveEvent | src/tui_io/mouse_input.rs:29-49 | the motion grammar yields only a drag, a move or Error |
| MouseInput.HandleScrollEvent | src/tui_io/mouse_input.rs:51-63 | the scroll grammar yields only ScrollUp, ScrollDown or Error |
| MouseInput.MouseDecodeSound | src/tui_io/mouse_input.rs:6-63 | every mouse event decoded was a well-formed report of exactly that event followed by the remaining buffer |
| MouseInput.IgnoreSound | src/tui_io/mouse_input.rs:6-22 | Ignore arises only from a button selector with coordinates ending in 'm' |
| MouseInput.HandleMouseEventsSuffix | src/tui_io/mouse_input.rs:6-97 | the mouse grammar only consumes input: what remains is a suffix of what it was given |
| InputSource.ReadRawImmediate | src/tui_io/unix_tui_io.rs:97-100 | (definition) the immediate read yields None exactly when the buffer is empty, and otherwise pops the head |
| UnixTuiIo.ReadChar | src/tui_io/unix_tui_io.rs:65-72 | (definition) a blocking read pops the head; a failed read on an empty buffer yields NUL |
| UnixTuiIo.ReadRaw | src/tui_io/unix_tui_io.rs:93-95 | (definition) the blocking raw read always returns Some |
| UnixTuiIo.FailedReadIsIgnored | src/tui_io/unix_tui_io.rs:65-72 | the NUL from a failed read decodes to Ignore |
| UnixTuiIo.ReadParsed | src/tui_io/unix_tui_io.rs:81-91 | the read loop never returns Ignore and always consumes input |
| UnixTuiIo.ReadParsedStep | src/tui_io/unix_tui_io.rs:81-91 | a first decode that is not Ignore is returned as is |
| UnixTuiIo.IgnoredStep | src/tui_io/unix_tui_io.rs:86-89 | after an Ignore, the loop starts over on what remains |
| UnixTuiIo.ReadParsedSkipsNul | src/tui_io/unix_tui_io.rs:86-89 | a NUL in front of the input does not change the next event |
| UnixTuiIo.ReadParsedErrorDrains | src/tui_io/unix_tui_io.rs:81-91 | an Error from the read loop leaves nothing pending |
| UnixTuiIo.ReadParsedEncoded | src/tui_io/unix_tui_io.rs:81-91 | the read loop returns any event from its encoding, followed by further input, and leaves exactly that input |
| UnixTuiIo.DecodeAllNoIgnore | src/tui_io/unix_tui_io.rs:81-91 | repeated reads never produce Ignore |
| UnixTuiIo.DecodeEncodeAll | src/tui_io/unix_tui_io.rs:81-91 | decoding the concatenated encodings of a stream of events gives the stream back; a lone Escape can only come last |
| UnixTuiIo.IgnoredEscapeEndsStream | src/tui_io/input_parser.rs:38-45 | once an escape sequence yields Ignore, no further events are decoded from that input |
| UnixTuiIo.ReadAll | src/tui_io/unix_tui_io.rs:81-91 | the iterative read loop produces exactly the events of the recursive definition |
| UnixTuiIo.NonBlockNew | src/tui_io/unix_tui_io.rs:110-121 | construction saves the fd's flags and sets O_NONBLOCK, leaving every other flag bit as it was |
| UnixTuiIo.NonBlockRead | src/tui_io/unix_tui_io.rs:122-131 | a non-blocking read changes neither the live nor the saved flags |
| UnixTuiIo.NonBlockDrop | src/tui_io/unix_tui_io.rs:134-138 | (definition) dropping the reader writes the saved flags back and keeps the pending input |
| UnixTuiIo.ReadRawImmediateIsCharRead | src/tui_io/unix_tui_io.rs:97-100 | the flag-saving immediate read on an fd leaves the flags as they were, and behaves like the immediate read on its pending bytes |
| UnixTuiIo.Chars | src/tui_io/unix_tui_io.rs:71 | (definition) each character produced is the value of one byte, so below 256 |
| WindowsTuiIo.ReadRecordImmediate | src/tui_io/windows_tui_io.rs:224-247 | the immediate read skips non-key and key-up records, yields None exactly when no key-down character is pending, and otherwise yields the next one |
| WindowsTuiIo.ReadRecordImmediateAfter | src/tui_io/windows_tui_io.rs:224-247 | a successful immediate read consumes exactly the records up to and including the first pending key character |
| WindowsTuiIo.HandleEscapeSequence | src/tui_io/windows_tui_io.rs:80-108 | Error, Ignore and a lone Escape always come with every pending input drained |
| WindowsTuiIo.EscapeRecords | src/tui_io/windows_tui_io.rs:80-108 | on console records, the escape path leaves exactly the records after the characters it consumed |
| WindowsTuiIo.LoneEscape | src/tui_io/windows_tui_io.rs:81-89 | ESC with no key pending is the Escape key |
| WindowsTuiIo.EscapeNotMouse | src/tui_io/windows_tui_io.rs:81-97 | a second byte other than '[', a third other than '<', or a missing third byte yields Error with the input drained |
| WindowsTuiIo.ArrowSequencesAreErrors | src/tui_io/windows_tui_io.rs:91-97 | `ESC [ A/B/C/D/3` are not recognised on this path and yield Error |
| WindowsTuiIo.EscapeMouse | src/tui_io/windows_tui_io.rs:99-107 | after `ESC [ <` the mouse grammar decides; its Error or Ignore drains the input, other results keep the rest |
| WindowsTuiIo.MouseReportDecodesHere | src/tui_io/windows_tui_io.rs:80-108 | every well-formed mouse report after `ESC [ <` decodes to exactly its event |
| WindowsTuiIo.VirtualKeyPrecedence | src/tui_io/windows_tui_io.rs:112-142 | Return, the arrows, Back, Delete, Space and Tab map to their fixed events whatever the character field holds, and Shift is Ignore |
| WindowsTuiIo.CharacterFallback | src/tui_io/windows_tui_io.rs:143-159 | for other keys: a surrogate is Error, 0x20..0x7D is AsciiReadable, 0 is Ignore, 1..26 is Control of a letter, ESC enters the escape path, and the rest is Other |
| WindowsTuiIo.ParseKeyEventData | src/tui_io/windows_tui_io.rs:110-163 | the key decoder; `WindowsTuiIo.VirtualKeyPrecedence`, `CharacterFallback`, `CharactersAsOnUnix` and `CharactersUnlikeUnix` carry its meaning |
| WindowsTuiIo.CharactersAsOnUnix | src/tui_io/windows_tui_io.rs:143-159 | a key without a virtual-key code of its own decodes like the same byte on Unix, for every character below 256 except tab, LF, CR, ESC, space and DEL |
| WindowsTuiIo.CharactersUnlikeUnix | src/tui_io/windows_tui_io.rs:143-159 | where the backends part: on Windows space is AsciiReadable, tab, LF and CR are Control of I, J and M, and DEL is Other, while Unix gives them Space, Tab, Enter and Backspace |
| WindowsTuiIo.ReadParsed | src/tui_io/windows_tui_io.rs:178-200 | the read loop never returns Ignore and always consumes records |
| WindowsTuiIo.ReadParsedSkips | src/tui_io/windows_tui_io.rs:178-200 | records that are not key-down key events are skipped |
| WindowsTuiIo.IgnoredKeyIsSkipped | src/tui_io/windows_tui_io.rs:189-191 | a key that decodes to Ignore makes the loop start over on the records after it |
| WindowsTuiIo.ReadParsedFirstKeyDown | src/tui_io/windows_tui_io.rs:178-200 | an event is only produced when some key-down record is pending |
| TuiEvents.TuiEvents.EqOrNone | src/tui_events.rs:21-27 | (definition) the equality test is Some exactly when the two events are equal |
| TuiEvents.EqOrNoneReflexive | src/tui_events.rs:21-27 | every event passes the equality test against itself |
| TuiEvents.TuiEvents.GetDigit | src/tui_events.rs:28-36 | a digit is only returned for AsciiReadable, is below 10, and names the low byte of the character |
| TuiEvents.GetDigitOfByte | src/tui_events.rs:28-36 | for characters below 256, AsciiReadable of a decimal digit gives its value and anything else gives None |
| TuiEvents.GetDigitTruncates | src/tui_events.rs:31 | the byte cast truncates: 'ķ' (U+0137) is read as the digit 7 |
| Decimal.ScanToDecimal | src/tui_terminal.rs:222-232 | reading the decimal rendering of n with the overflow-checked accumulator gives n when n fits in 16 bits, and None otherwise |
| Decimal.ValueOfToDecimal | src/tui_terminal.rs:197 | the decimal rendering of a number reads back as that number |
| Decimal.CanonicalIsToDecimal | src/tui_enums.rs:59-68 | a digit string without leading zeros is the decimal rendering of its value |
| CursorPosition.GetCursorPosition | src/tui_terminal.rs:201-263 | never consumes more than the reply holds; the lemmas below carry its meaning |
| CursorPosition.SetCursorPosition | src/tui_terminal.rs:194-199 | the move is at least six characters, starts with `ESC [` and ends with 'H'; `CursorPosition.SetCursorTarget` and `SetThenGet` carry the rest |
| CursorPosition.ReadNumberDecodes | src/tui_terminal.rs:222-239 | a run of digits whose value fits in 16 bits, then the stop byte, reads as that value and leaves what follows |
| CursorPosition.ReadNumberOverflows | src/tui_terminal.rs:224-232 | a run of digits whose value exceeds 65535 is an OverflowError, whatever follows it |
| CursorPosition.ReadNumberCutShort | src/tui_terminal.rs:222-239 | digits with nothing after them are an unexpected NUL on Unix and an IOError on Windows |
| CursorPosition.ReadNumberStops | src/tui_terminal.rs:233-238 | a run of digits ended by a byte other than the stop byte is unexpected input naming the stop byte |
| CursorPosition.ReportDecodes | src/tui_terminal.rs:201-263 | `ESC [ row ; col R` with both at most 65535 parses to `(col, row)` and leaves what follows |
| CursorPosition.ReportSound | src/tui_terminal.rs:201-263 | every accepted reply was `ESC [`, the row's digits, ';', the column's digits and 'R' |
| CursorPosition.RowOverflow | src/tui_terminal.rs:224-232 | a row above 65535 is an OverflowError, whatever follows its digits |
| CursorPosition.ColumnOverflow | src/tui_terminal.rs:245-253 | a column above 65535 is an OverflowError, whatever follows its digits |
| CursorPosition.ReplyErrors | src/tui_terminal.rs:204-217 | an empty reply or a lone ESC is an unexpected NUL on Unix and an IOError on Windows; a first byte other than ESC, or a second other than '[', is unexpected input |
| CursorPosition.RowUnexpected | src/tui_terminal.rs:220-239 | the row ended by anything but ';' is unexpected input, naming ';' as expected |
| CursorPosition.RowCutShort | src/tui_terminal.rs:220-239 | a reply that ends inside the row is an unexpected NUL on Unix and an IOError on Windows |
| CursorPosition.ReadNumberSound | src/tui_terminal.rs:220-258 | every number read was a run of digits of that value followed by the stop byte |
| CursorPosition.SetCursorTarget | src/tui_terminal.rs:194-199 | the cursor move names row y, then column x |
| CursorPosition.SetThenGet | src/tui_terminal.rs:194-263 | the position a cursor move sets, reported back by the terminal, is read as exactly the `(x, y)` that was set |
| TuiEnums.GetCode | src/tui_enums.rs:59-68 | every cursor code is `ESC [`, then the count in decimal without leading zeros, then one final byte in A..F |
| TuiEnums.NavOf | src/tui_enums.rs:61-66 | the final bytes A..F correspond one to one to Up, Down, Forwards, Backwards, NextLine and PreviousLine |
| TuiEnums.ParseGetCode | src/tui_enums.rs:59-68 | the direction and count can be recovered from every cursor code |
| TuiEnums.GetCodeOfParse | src/tui_enums.rs:59-68 | every string that parses as a cursor code is the code of what it parses to |
| TuiEnums.GetCodeInjective | src/tui_enums.rs:61-66 | distinct moves have distinct codes |
| Fonts.DefaultSettings | src/font_settings/mod.rs:14-26 | (definition) both colours and every attribute are Default, and line drawing is off |
| TerminalCodes.FontColorCode | src/tui_terminal.rs:57-95 | the foreground code; `TerminalCodes.FontColorCodeParams` and `ForegroundDecodes` carry its meaning |
| TerminalCodes.BackgroundColorCode | src/tui_terminal.rs:97-135 | the background code; `TerminalCodes.BackgroundColorCodeParams` and `BackgroundDecodes` carry its meaning |
| TerminalCodes.NamedParams | src/tui_terminal.rs:63-78 | each named colour's background parameter is its foreground one plus 10, and its bright variant adds 60 |
| TerminalCodes.NamedColorCodes | src/tui_terminal.rs:63-78 | the emitted codes for named colours are decimal, background = foreground + 10, bright = base + 60 |
| TerminalCodes.DefaultColorFallsBack | src/tui_terminal.rs:57-60 | a Default colour argument takes the session's ambient colour; when that too is Default the code is "39" for the foreground and "49" for the background |
| TerminalCodes.CodesOfResolved | src/tui_terminal.rs:97-100 | the colour code depends only on the colour after the ambient fallback |
| TerminalCodes.PaletteForeground | src/tui_terminal.rs:79-84 | `CC256(n)` in the foreground is "38;5;n" |
| TerminalCodes.PaletteBackground | src/tui_terminal.rs:119-124 | `CC256(n)` in the background is "48;5;n" |
| TerminalCodes.DirectForeground | src/tui_terminal.rs:85-91 | `RGB(r, g, b)` in the foreground is "38;2;r;g;b" |
| TerminalCodes.DirectBackground | src/tui_terminal.rs:125-131 | `RGB(r, g, b)` in the background is "48;2;r;g;b" |
| TerminalCodes.FontColorCodeParams | src/tui_terminal.rs:57-95 | the foreground code is the SGR parameter list of the resolved colour |
| TerminalCodes.BackgroundColorCodeParams | src/tui_terminal.rs:97-135 | the background code is the SGR parameter list of the resolved colour |
| TerminalCodes.ForegroundDecodes | src/tui_terminal.rs:57-95 | interpreting a colour's foreground parameters sets exactly that foreground colour |
| TerminalCodes.BackgroundDecodes | src/tui_terminal.rs:97-135 | interpreting a colour's background parameters sets exactly that background colour |
| TerminalCodes.AttributeCodesAreDecimal | src/tui_terminal.rs:137-185 | True gives the on code 1/4/3/7/5, False the off code 22/24/23/27/25, and Default falls back to the ambient value and then to off |
| TerminalCodes.SwitchesApply | src/tui_terminal.rs:137-185 | each attribute code switches its attribute on or off in the rendition, as the resolved setting says |
| TerminalCodes.ItalicsFollowsUnderline | src/tui_terminal.rs:157-165 | a Default italic setting takes the ambient underline setting, not the ambient italic one |
| TerminalCodes.BoldCode | src/tui_terminal.rs:137-145 | the bold code; `TerminalCodes.AttributeCodesAreDecimal` and `SwitchesApply` carry its meaning |
| TerminalCodes.UnderlinedCode | src/tui_terminal.rs:147-155 | the underline code; `TerminalCodes.AttributeCodesAreDecimal` and `SwitchesApply` carry its meaning |
| TerminalCodes.ItalicsCode | src/tui_terminal.rs:157-165 | the italic code; `TerminalCodes.ItalicsFollowsUnderline` and `SwitchesApply` carry its meaning |
| TerminalCodes.InvertedCode | src/tui_terminal.rs:167-175 | the inverse code; `TerminalCodes.AttributeCodesAreDecimal` and `SwitchesApply` carry its meaning |
| TerminalCodes.BlinkingCode | src/tui_terminal.rs:177-185 | the blink code; `TerminalCodes.AttributeCodesAreDecimal` and `SwitchesApply` carry its meaning |
| TerminalCodes.CalcFontSettingsCode | src/tui_terminal.rs:287-306 | the settings code; `TerminalCodes.CodeIsParams` and `CodeSetsEffectiveRendition` carry its meaning |
| TerminalCodes.DecLineCode | src/tui_terminal.rs:280-285 | the code designates a G0 set, `ESC ( 0` (DEC Special Graphics) exactly when line drawing is on, and `ESC ( B` otherwise |
| TerminalCodes.ClearEndLine | src/tui_terminal.rs:434-436 | (definition) the erase-to-end-of-line code `ESC [ 0 K` |
| TerminalCodes.CodeIsParams | src/tui_terminal.rs:287-306 | the settings code is `ESC [`, then fg;bg;bold;underline;italic;inverse;blink in that order, then 'm' |
| TerminalCodes.AttributesDecode | src/tui_terminal.rs:137-185 | the five attribute parameters set the five attributes to their effective values |
| TerminalCodes.SettingsApply | src/tui_terminal.rs:287-306 | from any prior rendition, the settings parameters produce exactly the effective rendition |
| TerminalCodes.CodeSetsEffectiveRendition | src/tui_terminal.rs:287-306 | the emitted settings code, interpreted by SGR, yields the settings resolved against the ambient ones, whatever was in force before |
| TerminalCodes.RenderedDefault | src/font_settings/mod.rs:14-26 | default settings against default ambient render as `ESC[39;49;22;24;23;27;25m`, and interpreting that yields the plain rendition |
| Sgr.SplitJoin | src/tui_terminal.rs:287-306 | a ';'-joined parameter list splits back into the same list |
| Sgr.JoinAppend | src/tui_terminal.rs:287-306 | joining two lists is joining each with a ';' between them |
| Sgr.Extended | src/tui_terminal.rs:79-91 | a parsed extended colour consumes at least one and at most all of the remaining parameters |
| TerminalOutput.SendFontSettings | src/tui_terminal.rs:308-321 | sending settings emits escape codes only, no text |
| TerminalOutput.JoinSplit | src/tui_terminal.rs:388 | splitting text on '\n' and joining the lines again gives back the text |
| TerminalOutput.SplitLines | src/tui_terminal.rs:388 | splitting gives at least one line and no line contains '\n' |
| TerminalOutput.SplitJoin | src/tui_terminal.rs:388 | joining newline-free lines and splitting again gives the lines back |
| TerminalOutput.Write | src/tui_terminal.rs:385-399 | the chunks `write` emits; `TerminalOutput.WriteKeepsText` and `WriteRestoresSession` carry its meaning |
| TerminalOutput.Print | src/tui_terminal.rs:413-427 | the chunks `print` emits; `TerminalOutput.WriteKeepsText` and `WriteRestoresSession` carry its meaning |
| TerminalOutput.Println | src/tui_terminal.rs:401-411 | the chunks `println` emits; `TerminalOutput.PrintlnAddsNewline` carries its meaning |
| TerminalOutput.WriteLinesText | src/tui_terminal.rs:385-399 | the text of the per-line output is the lines joined by '\n' |
| TerminalOutput.WriteKeepsText | src/tui_terminal.rs:385-427 | with the escape codes removed, `write` and `print` emit exactly the input text |
| TerminalOutput.PrintlnAddsNewline | src/tui_terminal.rs:401-411 | with the escape codes removed, `println` emits the input text plus one '\n' |
| TerminalOutput.WriteRestoresSession | src/tui_terminal.rs:385-427 | output starts with the string's style and ends by restoring the session's settings |
| StyledText.DecCode | src/string_plus.rs:23-44 | named DEC characters map into 0x61..0x7C, and `Other(c)` maps to c |
| StyledText.DecCodeInjective | src/string_plus.rs:24-44 | distinct named DEC characters have distinct codes |
| StyledText.NamedGlyphOfCode | src/string_plus.rs:24-44 | each named DEC character is recovered from its code |
| StyledText.Apply | src/string_plus.rs:107-147 | a setter changes only its own field: the text, line drawing and every other field stay as they were |
| StyledText.GetAfterSet | src/string_plus.rs:53-147 | reading a field back after setting it gives the value that was set |
| StyledText.LastWriteWins | src/string_plus.rs:107-147 | setting a field twice is the same as setting it the second time only |
| StyledText.SettersCommute | src/string_plus.rs:107-147 | setters on different fields commute |
| StyledText.SetFontSettings | src/string_plus.rs:149-153 | (definition) the whole-settings setter replaces all settings and keeps the text |
| StyledText.SetFontSettingsOverrides | src/string_plus.rs:149-153 | the whole-settings setter overrides any earlier field setter |
| StyledText.FromStr | src/string_plus.rs:174-190 | (definition) converting a string keeps its text and uses the default settings |
| StyledText.FromChar | src/string_plus.rs:168-172 | (definition) converting a character gives that one character with the default settings |
| StyledText.FromDec | src/string_plus.rs:192-201 | converting a DEC character gives one character and differs from the defaults only in line drawing being on |
| StyledText.FromDecSelectsGlyph | src/string_plus.rs:192-201 | the text of a converted DEC character is that character's code |
| StyledText.ToText | src/string_plus.rs:156-160 | the conversion to a string; `StyledText.TextSurvivesStyling` carries its meaning |
| StyledText.TextSurvivesStyling | src/string_plus.rs:156-160 | however a converted string is styled, its text reads back unchanged |
| StyledText.Len | src/string_plus.rs:91-93 | the length is between one and four bytes per character of the text |
| StyledText.LenBounds | src/string_plus.rs:91-93 | the length is the UTF-8 byte length, between one and four bytes per character, and equal to the character count for ASCII |

## Left out

- FFI and OS plumbing are not part of this model: `src/tui_io/unix_ffi.rs`, `src/tui_io/unix/*`, `src/tui_io/windows_ffi.rs` and `src/tui_io/windows/*`. These are foreign calls and C layouts. Termios and console-mode setup and reset, and `get_teminal_size`, are left out for the same reason. The Unix fd is only a flag word plus pending bytes.
- The Windows blocking `read_raw` (`src/tui_io/windows_tui_io.rs:202-222`) and the failure paths of the console API calls are left out: they depend on the live console.
- The session lock and `MutexGuard` in `src/tui_terminal.rs` are left out: they concern concurrency and resource ownership.
- The actual `write` and `flush` calls are left out. Output is modelled as the sequence of escape-code and text chunks that would be written.
- Real-time arrival is left out: whether a continuation byte arrives in time, and the wait of a blocking read. The finite buffer is a snapshot. An empty buffer means no event yet for `read_parsed`, and a failed read for `read_char`.
- UnixTuiIo.ReadParsed: the `None` branch of `read_raw`, which returns Error, is unreachable because `read_raw` always returns Some. The model's `None` result means the buffer was exhausted instead.
- CursorPosition.GetCursorPosition: writing the query and flushing are left out. On Windows the blocking wait for the reply is modelled as a read that returns nothing, which the code reports as an `IOError`.
- `shift_cursor`, the save, restore and shape cursor codes, the clear codes other than `clear_end_line`, the alternate buffer and mouse-mode switches are left out. They send fixed strings with no logic to verify.
- The `StringPlus` getters are modelled as field access, and `as_sp` as `From<String>`.
- `src/main.rs` is an interactive demo and is left out. `src/tui_terminal_tests.rs` needs a real terminal; it is only evidence for the cursor round trip.
- `src/unix_tui.rs`, `src/windows_tui.rs`, `src/tui_terminal/mod.rs`, `src/string_plus/mod.rs`, `src/tui_enums/mod.rs`, `src/tui_keys/mod.rs`, `src/tui_events/mod.rs` and `src/lib.rs` are left out. They are superseded versions of the same logic for the older `TuiEvent` and `TuiKeys` API.
- `src/tui_errors.rs`, `src/tui_io/output_interface.rs`, `src/tui_io/terminal_interface.rs` and `src/tui_io/mod.rs` only declare types and traits, so they are left out. `CursorPositionError` is reused as the error datatype.
- UnixTuiIo.DecodeEncodeAll: the claim that a button release also discards well-formed events queued behind it is not stated over whole streams. It is stated per call (`InputParser.ReleaseDiscardsQueued`), and `UnixTuiIo.IgnoredEscapeEndsStream` says no events follow.

## Findings

| source | as written | input that shows it | evidently intended | confidence | as-written member | corrected member |
|---|---|---|---|---|---|---|
| src/tui_io/input_parser.rs:131 (also src/tui_io/mouse_input.rs:72) | the multiply guard `num > u16::MAX` can never hold for a `u16`, so `num *= 10` is unguarded: it wraps in release builds (and panics in debug ones); only the addition is checked | the digits "99999;" after a selector and ';' yield 34463 instead of None | a numeral above 65535 yields None, as the guard pattern of `src/tui_terminal.rs:225-231` does | high; not executed | MouseInput.GetU16AsWrittenFrom, MouseInput.GetU16AsWrittenWraps | MouseInput.GetU16From, MouseInput.GetU16FromSpec, MouseInput.GetU16Overflow |
