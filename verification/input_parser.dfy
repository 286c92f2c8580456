/**
  The byte-level decoder of the Unix backend (src/tui_io/input_parser.rs):
  classification of a first byte, the two-state escape machine for
  `ESC [ A|B|C|D`, `ESC [ 3 ~` and `ESC [ <` mouse reports, and the drain
  that resynchronises the input after an `Error` or `Ignore` on the escape
  path. The cursor keys are the CUU, CUD, CUF and CUB final bytes of
  sections 8.3.22, 8.3.19, 8.3.20 and 8.3.18 of ECMA-48.
 */
module InputParser {
  import opened Wrappers
  import opened Decimal
  import opened TuiEvents
  import opened InputSource
  import opened MouseInput

  const DEL: ByteChar := 127 as char

  /** `parse_input` on any byte but `ESC`: one byte is one event. */
  function Classify(c: char): TuiEvents
    requires c != ESC
  {
    if c == DEL then Backspace
    else if c == '\n' || c == '\r' then Enter
    else if c == ' ' then Space
    else if c == '\t' then Tab
    else if 0x20 <= c as int <= 0x7D then AsciiReadable(c)
    else if c as int == 0 then Ignore
    else if 1 <= c as int <= 26 then Control((c as int + 0x40) as char)
    else Other(c)
  }

  /** `parse_input`: a first byte read with a blocking read, then the escape path if it is `ESC`. */
  function ParseInput(c: ByteChar, v: seq<ByteChar>): (r: (TuiEvents, seq<ByteChar>))
    ensures |r.1| <= |v|
    ensures c != ESC ==> r == (Classify(c), v)
  {
    if c == ESC then HandleEscapeInputS1(v) else (Classify(c), v)
  }

  /**
    `handle_escape_input_s1`: after `ESC`, nothing pending is a lone Escape
    key, `[` enters the second state and anything else is an error. An
    `Error` or `Ignore` outcome drains the pending input.
   */
  function HandleEscapeInputS1(v: seq<ByteChar>): (r: (TuiEvents, seq<ByteChar>))
    ensures |r.1| <= |v|
    ensures r.0 == Error || r.0 == Ignore ==> r.1 == []
  {
    var (c, rest) := ReadRawImmediate(v);
    var (result, rest2) :=
      if c.None? then (Escape, rest)
      else if c.value == '[' then HandleEscapeInputS2(rest)
      else (Error, rest);
    if result == Error || result == Ignore then (result, Drain(rest2)) else (result, rest2)
  }

  /** `handle_escape_input_s2`: the byte after `ESC [`. */
  function HandleEscapeInputS2(v: seq<ByteChar>): (r: (TuiEvents, seq<ByteChar>))
    ensures |r.1| <= |v|
  {
    var (c, rest) := ReadRawImmediate(v);
    if c == Some('A') then (UpArrow, rest)
    else if c == Some('B') then (DownArrow, rest)
    else if c == Some('C') then (RightArrow, rest)
    else if c == Some('D') then (LeftArrow, rest)
    else if c == Some('3') then
      var (c2, rest2) := ReadRawImmediate(rest);
      if c2 == Some('~') then (Delete, rest2) else (Error, rest2)
    else if c == Some('<') then HandleMouseEvents(rest)
    else (Error, rest)
  }

  // ---------------------------------------------------------------------------
  // The byte sequences a terminal sends for each event
  // ---------------------------------------------------------------------------

  /** The events a terminal can send, as this decoder reads them back. */
  predicate Encodable(e: TuiEvents) {
    match e
    case AsciiReadable(c) => 0x21 <= c as int <= 0x7D
    case Control(c) => 'A' <= c <= 'Z' && c !in "IJM"
    case Other(c) => (0x1C <= c as int <= 0x1F) || c as int == 0x7E || (0x80 <= c as int < 0x100)
    case Ignore => false
    case Error => false
    case _ => true
  }

  /** The one byte of a single-byte event. */
  predicate SingleByte(e: TuiEvents) {
    e.Enter? || e.Backspace? || e.Space? || e.Tab? || e.AsciiReadable? || e.Control? || e.Other?
  }

  /**
    The bytes a terminal sends for `e`: `\r` for Enter, xterm's CSI
    sequences, SGR mouse reports. The one exception is `MouseMove`, whose
    report ends in `m` because that is what the decoder demands; xterm ends
    a motion report in `M` (see `MouseInput.XtermMotionIsError`).
   */
  function Encode(e: TuiEvents): (s: seq<ByteChar>)
    requires Encodable(e)
    ensures 1 <= |s| && (s[0] == ESC <==> !SingleByte(e))
  {
    match e
    case Enter => "\r"
    case Backspace => [DEL]
    case Space => " "
    case Tab => "\t"
    case AsciiReadable(c) => [c]
    case Control(c) => [(c as int - 0x40) as char]
    case Other(c) => [c]
    case Escape => [ESC]
    case UpArrow => [ESC] + "[A"
    case DownArrow => [ESC] + "[B"
    case RightArrow => [ESC] + "[C"
    case LeftArrow => [ESC] + "[D"
    case Delete => [ESC] + "[3~"
    case LeftClick(_) | MiddleClick(_) | RightClick(_) | MouseMove(_) | LeftDrag(_) | MiddleDrag(_)
       | RightDrag(_) | ScrollUp(_) | ScrollDown(_) =>
      EncodeMouse(e)
  }

  /** A mouse event as an SGR report with plain decimal coordinates. */
  function EncodeMouse(e: TuiEvents): seq<ByteChar>
    requires e.IsMouse()
  {
    [ESC] + "[<" + Report(e, ToDecimal(e.at.0), ToDecimal(e.at.1))
  }

  // ---------------------------------------------------------------------------
  // Single bytes
  // ---------------------------------------------------------------------------

  /** Classification and encoding are inverse on single-byte events. */
  lemma ClassifyEncode(e: TuiEvents)
    requires Encodable(e) && SingleByte(e)
    ensures Encode(e)[0] != ESC && Classify(Encode(e)[0]) == e
  {
  }

  /** Every byte but `ESC`, `\n` and NUL is the encoding of what it classifies as. */
  lemma EncodeClassify(c: ByteChar)
    requires c != ESC && c != '\n' && c as int != 0
    ensures Encodable(Classify(c)) && Encode(Classify(c)) == [c]
  {
  }

  /** Printable ASCII up to `}` reads as itself; the space bar is `Space`. */
  lemma ReadableBytes(c: ByteChar)
    requires 0x20 <= c as int <= 0x7D
    ensures ParseInput(c, []).0 == if c == ' ' then Space else AsciiReadable(c)
  {
  }

  /** Bytes 1 to 26 other than tab, line feed and carriage return are Ctrl plus a capital letter. */
  lemma ControlBytes(c: ByteChar)
    requires 1 <= c as int <= 26 && c != '\t' && c != '\n' && c != '\r'
    ensures Classify(c).Control? && 'A' <= Classify(c).ch <= 'Z' && Classify(c).ch as int == c as int + 0x40
  {
  }

  /** The named keys, NUL, and the bytes that fall through to `Other`. */
  lemma SpecialBytes(c: ByteChar)
    requires c != ESC
    ensures c == DEL ==> Classify(c) == Backspace
    ensures c == '\n' || c == '\r' ==> Classify(c) == Enter
    ensures c == '\t' ==> Classify(c) == Tab
    ensures c as int == 0 ==> Classify(c) == Ignore
    ensures c as int == 0x7E || c as int >= 0x80 || 0x1C <= c as int <= 0x1F ==> Classify(c) == Other(c)
  {
  }

  // ---------------------------------------------------------------------------
  // The escape path
  // ---------------------------------------------------------------------------

  /** `ESC` with nothing pending is the Escape key. */
  lemma LoneEscape()
    ensures ParseInput(ESC, []) == (Escape, [])
  {
  }

  /** `ESC` followed by anything but `[` is an error, and the rest of the input is drained. */
  lemma EscapeThenOther(b: ByteChar, w: seq<ByteChar>)
    requires b != '['
    ensures ParseInput(ESC, [b] + w) == (Error, [])
  {
    ReadFront(b, w);
  }

  /** After `ESC [`, the byte that follows decides; `3` must be followed by `~`. */
  lemma CsiKeys(b: ByteChar, w: seq<ByteChar>)
    requires b != '<'
    ensures var r := ParseInput(ESC, ['[', b] + w);
      && (b == 'A' ==> r == (UpArrow, w))
      && (b == 'B' ==> r == (DownArrow, w))
      && (b == 'C' ==> r == (RightArrow, w))
      && (b == 'D' ==> r == (LeftArrow, w))
      && (b == '3' ==> r == if w != [] && w[0] == '~' then (Delete, w[1..]) else (Error, []))
      && (b !in "ABCD3" ==> r == (Error, []))
  {
    ReadFront('[', [b] + w);
    ReadFront(b, w);
    assert ['[', b] + w == ['['] + ([b] + w);
  }

  /** `ESC [ <` hands the rest of the input to the mouse decoder and drains after `Error` or `Ignore`. */
  lemma EscapeMouse(w: seq<ByteChar>)
    ensures var m := HandleMouseEvents(w);
      ParseInput(ESC, "[<" + w) == if m.0 == Error || m.0 == Ignore then (m.0, []) else m
  {
    ReadFront('[', "<" + w);
    ReadFront('<', w);
    assert "[<" + w == ['['] + (['<'] + w);
  }

  /** On the escape path, `Error` and `Ignore` leave nothing pending: the next read starts afresh. */
  lemma DrainResynchronises(v: seq<ByteChar>)
    ensures var r := ParseInput(ESC, v);
      r.0 == Error || r.0 == Ignore ==> r.1 == []
  {
  }

  /** Whatever is queued behind a button release, well-formed events included, is discarded by the drain. */
  lemma ReleaseDiscardsQueued(b: ByteChar, dx: seq<ByteChar>, dy: seq<ByteChar>, tail: seq<ByteChar>)
    requires b in "012"
    requires AllDigits(dx) && Value(dx) <= U16_MAX
    requires AllDigits(dy) && Value(dy) <= U16_MAX
    ensures ParseInput(ESC, "[<" + [b] + ";" + dx + ";" + dy + "m" + tail) == (Ignore, [])
  {
    var w := [b] + ";" + dx + ";" + dy + "m" + tail;
    ButtonReleaseIgnored(b, dx, dy, tail);
    EscapeMouse(w);
    ReleaseRegroup(b, dx, dy, tail);
  }

  lemma ReleaseRegroup(b: ByteChar, dx: seq<ByteChar>, dy: seq<ByteChar>, tail: seq<ByteChar>)
    ensures "[<" + [b] + ";" + dx + ";" + dy + "m" + tail == "[<" + ([b] + ";" + dx + ";" + dy + "m" + tail)
  {
  }

  /** An escape followed by any well-formed SGR report decodes to the reported event. */
  lemma EscapeReportDecodes(e: TuiEvents, dx: seq<ByteChar>, dy: seq<ByteChar>, tail: seq<ByteChar>)
    requires e.IsMouse() && IsNumeral(dx, e.at.0) && IsNumeral(dy, e.at.1)
    ensures ParseInput(ESC, "[<" + (Report(e, dx, dy) + tail)) == (e, tail)
  {
    MouseReportDecodes(e, dx, dy, tail);
    EscapeMouse(Report(e, dx, dy) + tail);
  }

  lemma EncodeIsReport(e: TuiEvents)
    requires e.IsMouse()
    ensures Encodable(e) && Encode(e) == EncodeMouse(e)
  {
  }

  lemma FrontSplit(a: ByteChar, p: seq<ByteChar>, q: seq<ByteChar>, tail: seq<ByteChar>)
    ensures ([a] + p + q)[0] == a && ([a] + p + q)[1..] + tail == p + (q + tail)
  {
    assert ([a] + p + q)[1..] == p + q;
  }

  /** The mouse events decode from their SGR reports. */
  lemma DecodeEncodedMouse(e: TuiEvents, tail: seq<ByteChar>)
    requires e.IsMouse()
    ensures Encodable(e) && var s := Encode(e); ParseInput(s[0], s[1..] + tail) == (e, tail)
  {
    var dx := ToDecimal(e.at.0);
    var dy := ToDecimal(e.at.1);
    ValueOfToDecimal(e.at.0);
    ValueOfToDecimal(e.at.1);
    EscapeReportDecodes(e, dx, dy, tail);
    EncodeIsReport(e);
    FrontSplit(ESC, "[<", Report(e, dx, dy), tail);
  }

  /** The cursor keys and Delete decode from their CSI sequences. */
  lemma DecodeEncodedCsi(e: TuiEvents, tail: seq<ByteChar>)
    requires e.UpArrow? || e.DownArrow? || e.RightArrow? || e.LeftArrow? || e.Delete?
    ensures Encodable(e) && var s := Encode(e); ParseInput(s[0], s[1..] + tail) == (e, tail)
  {
    var s := Encode(e);
    var b := s[2];
    CsiKeys(b, s[3..] + tail);
    assert s[1..] + tail == ['[', b] + (s[3..] + tail);
    if e.Delete? {
      assert s[3..] + tail == ['~'] + tail;
    }
  }

  /** Every encodable event decodes from its bytes and leaves what follows untouched. */
  lemma DecodeEncoded(e: TuiEvents, tail: seq<ByteChar>)
    requires Encodable(e) && (e == Escape ==> tail == [])
    ensures var s := Encode(e); ParseInput(s[0], s[1..] + tail) == (e, tail)
  {
    if e.IsMouse() {
      DecodeEncodedMouse(e, tail);
    } else if e.UpArrow? || e.DownArrow? || e.RightArrow? || e.LeftArrow? || e.Delete? {
      DecodeEncodedCsi(e, tail);
    } else if e == Escape {
      LoneEscape();
    } else {
      ClassifyEncode(e);
      assert Encode(e)[1..] + tail == tail;
    }
  }

  lemma MouseAfterPrefix(v: seq<ByteChar>)
    ensures ParseInput(ESC, v).0.IsMouse() ==> |v| >= 2 && v[0] == '[' && v[1] == '<'
  {
  }

  /** A mouse event on the escape path was read after `[<` by the mouse decoder. */
  lemma EscapeMouseSound(v: seq<ByteChar>)
    ensures var r := ParseInput(ESC, v);
      r.0.IsMouse() ==> exists dx, dy :: IsNumeral(dx, r.0.at.0) && IsNumeral(dy, r.0.at.1)
                                         && v == "[<" + Report(r.0, dx, dy) + r.1
  {
    var r := ParseInput(ESC, v);
    if r.0.IsMouse() {
      MouseAfterPrefix(v);
      var w := v[2..];
      assert v == "[<" + w;
      EscapeMouse(w);
      MouseDecodeSound(w);
      var dx, dy :| IsNumeral(dx, r.0.at.0) && IsNumeral(dy, r.0.at.1) && w == Report(r.0, dx, dy) + r.1;
      assert v == "[<" + Report(r.0, dx, dy) + r.1;
    }
  }

  /** A key on the escape path was read as its own bytes. */
  lemma EscapeKeySound(v: seq<ByteChar>)
    ensures var r := ParseInput(ESC, v);
      r.0 != Error && r.0 != Ignore && !r.0.IsMouse() ==>
        Encodable(r.0) && !SingleByte(r.0) && v == Encode(r.0)[1..] + r.1
  {
    var r := ParseInput(ESC, v);
    if r.0 != Error && r.0 != Ignore && !r.0.IsMouse() && v != [] {
      assert v[0] == '[';
      var w := v[1..];
      if w[0] == '3' {
        assert v == "[3~" + r.1;
      } else {
        assert v == ['[', w[0]] + r.1;
      }
    }
  }

  /**
    What the escape path decodes, other than `Error` and `Ignore`, is read
    off the front of the input: the event's own bytes, or for a mouse event
    a report whose numerals may carry leading zeros.
   */
  lemma EscapeSound(v: seq<ByteChar>)
    ensures var r := ParseInput(ESC, v);
      && (r.0 != Error && r.0 != Ignore && !r.0.IsMouse() ==>
            Encodable(r.0) && !SingleByte(r.0) && v == Encode(r.0)[1..] + r.1)
      && (r.0.IsMouse() ==> exists dx, dy :: IsNumeral(dx, r.0.at.0) && IsNumeral(dy, r.0.at.1)
                                            && v == "[<" + Report(r.0, dx, dy) + r.1)
  {
    EscapeKeySound(v);
    EscapeMouseSound(v);
  }
}
