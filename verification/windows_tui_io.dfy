/**
  The Windows input backend (src/tui_io/windows_tui_io.rs). Input arrives
  as console input records. Only key-down `KEY_EVENT` records carry input;
  `read_parsed` decodes a key record by its virtual-key code first and its
  UTF-16 character second, and the character reads used for escape
  sequences see the low byte of each key-down record. Its escape path
  knows only mouse reports (`ESC [ <`); the cursor keys arrive as
  virtual-key codes instead.
 */
module WindowsTuiIo {
  import opened Wrappers
  import opened Decimal
  import opened TuiEvents
  import opened InputSource
  import opened MouseInput
  import InputParser

  /** `KEY_EVENT` from src/tui_io/windows/constants.rs. */
  const KEY_EVENT: uint16 := 1

  // The virtual-key codes of src/tui_io/windows_ffi.rs.
  const VK_BACK: uint16 := 0x8
  const VK_DELETE: uint16 := 0x2E
  const VK_UP: uint16 := 0x26
  const VK_DOWN: uint16 := 0x28
  const VK_LEFT: uint16 := 0x25
  const VK_RIGHT: uint16 := 0x27
  const VK_SPACE: uint16 := 0x20
  const VK_TAB: uint16 := 0x9
  const VK_RETURN: uint16 := 0xD
  const VK_SHIFT: uint16 := 0x10
  const VK_ESCAPE: uint16 := 0x1B

  /** The fields of `KEY_EVENT_RECORD` the decoder reads. */
  datatype KeyEventRecord = KeyEventRecord(keyDown: bool, virtualKeyCode: uint16, unicodeChar: uint16)

  /** An `INPUT_RECORD`; `keyEvent` is meaningful only when `eventType` is `KEY_EVENT`. */
  datatype InputRecord = InputRecord(eventType: uint16, keyEvent: KeyEventRecord)

  predicate IsKeyDown(r: InputRecord) {
    r.eventType == KEY_EVENT && r.keyEvent.keyDown
  }

  /** `u_char.ascii_char`: the byte that overlays the low byte of the UTF-16 unit. */
  function AsciiChar(k: KeyEventRecord): ByteChar {
    (k.unicodeChar % 0x100) as char
  }

  /** The characters the raw reads see: one per key-down record, in order. */
  function KeyChars(rs: seq<InputRecord>): seq<ByteChar> {
    if rs == [] then []
    else (if IsKeyDown(rs[0]) then [AsciiChar(rs[0].keyEvent)] else []) + KeyChars(rs[1..])
  }

  /**
    `read_raw_immediate`: take records while any are queued, skipping all
    but key-down records. Seen through `KeyChars`, it is the immediate
    character read, and with no key-down record left it consumes every
    queued record.
   */
  function ReadRecordImmediate(rs: seq<InputRecord>): (r: (Option<ByteChar>, seq<InputRecord>))
    ensures (r.0, KeyChars(r.1)) == ReadRawImmediate(KeyChars(rs))
    ensures r.0.None? ==> r.1 == []
    ensures |r.1| <= |rs|
    decreases |rs|
  {
    if rs == [] then (None, rs)
    else if IsKeyDown(rs[0]) then (Some(AsciiChar(rs[0].keyEvent)), rs[1..])
    else
      assert KeyChars(rs) == KeyChars(rs[1..]);
      ReadRecordImmediate(rs[1..])
  }

  /** The records left once the first `k` key-down records have been read. */
  function RecordsAfter(rs: seq<InputRecord>, k: nat): (r: seq<InputRecord>)
    requires k <= |KeyChars(rs)|
    ensures KeyChars(r) == KeyChars(rs)[k..]
    ensures |r| <= |rs|
    decreases |rs|
  {
    if k == 0 then rs
    else if IsKeyDown(rs[0]) then RecordsAfter(rs[1..], k - 1)
    else RecordsAfter(rs[1..], k)
  }

  /** One immediate read that finds a key-down record leaves the records after the first one. */
  lemma {:induction false} ReadRecordImmediateAfter(rs: seq<InputRecord>)
    ensures var r := ReadRecordImmediate(rs);
      r.0.Some? ==> 1 <= |KeyChars(rs)| && r.1 == RecordsAfter(rs, 1)
    decreases |rs|
  {
    if rs != [] && !IsKeyDown(rs[0]) {
      ReadRecordImmediateAfter(rs[1..]);
    }
  }

  /** Reading `k` and then `j` key-down records leaves the records after the first `k + j`. */
  lemma {:induction false} RecordsAfterAdd(rs: seq<InputRecord>, k: nat, j: nat)
    requires k + j <= |KeyChars(rs)|
    ensures j <= |KeyChars(RecordsAfter(rs, k))| && RecordsAfter(RecordsAfter(rs, k), j) == RecordsAfter(rs, k + j)
    decreases |rs|
  {
    if k != 0 {
      if IsKeyDown(rs[0]) {
        RecordsAfterAdd(rs[1..], k - 1, j);
      } else {
        RecordsAfterAdd(rs[1..], k, j);
      }
    }
  }

  // ---------------------------------------------------------------------------
  // The escape path
  // ---------------------------------------------------------------------------

  /**
    `handle_escape_sequence`, over the key characters: nothing pending is
    the Escape key; anything but `[ <` is an error; after `[ <` the mouse
    decoder runs. Every `Error` and `Ignore` drains the pending input.
   */
  function HandleEscapeSequence(v: seq<ByteChar>): (r: (TuiEvents, seq<ByteChar>))
    ensures |r.1| <= |v|
    ensures r.0 == Error || r.0 == Ignore || r.0 == Escape ==> r.1 == []
  {
    var (c, rest) := ReadRawImmediate(v);
    if c.None? then (Escape, rest)
    else if c.value != '[' then (Error, Drain(rest))
    else
      var (c2, rest2) := ReadRawImmediate(rest);
      if c2 != Some('<') then (Error, Drain(rest2))
      else
        var (result, rest3) := HandleMouseEvents(rest2);
        if result == Error || result == Ignore then (result, Drain(rest3)) else (result, rest3)
  }

  /** The escape path reads from the front of the input and leaves the rest as it was. */
  lemma HandleEscapeSequenceSuffix(v: seq<ByteChar>)
    ensures IsSuffix(HandleEscapeSequence(v).1, v)
  {
    if |v| >= 2 {
      HandleMouseEventsSuffix(v[2..]);
      assert IsSuffix(v[2..], v);
      SuffixTransitive(v, v[2..], HandleMouseEvents(v[2..]).1);
    }
  }

  /**
    The escape path on records. When it ends on a read that found nothing
    (`Escape`, or a drain) no record is left; otherwise the records after
    the last key-down record it read are.
   */
  function EscapeRecords(rs: seq<InputRecord>): (r: (TuiEvents, seq<InputRecord>))
    ensures |r.1| <= |rs|
    ensures KeyChars(r.1) == HandleEscapeSequence(KeyChars(rs)).1
  {
    var v := KeyChars(rs);
    var (e, rest) := HandleEscapeSequence(v);
    HandleEscapeSequenceSuffix(v);
    if e == Error || e == Ignore || e == Escape then (e, [])
    else (e, RecordsAfter(rs, |v| - |rest|))
  }

  /** `char::from_u32` fails on exactly the UTF-16 surrogate units. */
  predicate IsSurrogate(u: uint16) {
    0xD800 <= u <= 0xDFFF
  }

  /** `parse_key_event_data`: the virtual-key code first, then the character. */
  function ParseKeyEventData(k: KeyEventRecord, rs: seq<InputRecord>): (r: (TuiEvents, seq<InputRecord>))
    ensures |r.1| <= |rs|
  {
    var vk := k.virtualKeyCode;
    if vk == VK_RETURN then (Enter, rs)
    else if vk == VK_LEFT then (LeftArrow, rs)
    else if vk == VK_UP then (UpArrow, rs)
    else if vk == VK_RIGHT then (RightArrow, rs)
    else if vk == VK_DOWN then (DownArrow, rs)
    else if vk == VK_BACK then (Backspace, rs)
    else if vk == VK_DELETE then (Delete, rs)
    else if vk == VK_SPACE then (Space, rs)
    else if vk == VK_TAB then (Tab, rs)
    else if vk == VK_ESCAPE then EscapeRecords(rs)
    else if vk == VK_SHIFT then (Ignore, rs)
    else
      var u := k.unicodeChar;
      if IsSurrogate(u) then (Error, rs)
      else if 0x20 <= u <= 0x7D then (AsciiReadable(u as char), rs)
      else if u == 0 then (Ignore, rs)
      else if 1 <= u <= 26 then (Control((u + 0x40) as char), rs)
      else if u == 0x1B then EscapeRecords(rs)
      else (Other(u as char), rs)
  }

  /**
    `read_parsed`: take records, skip all but key-down records, decode,
    and go round again on `Ignore`. `None` stands for a call still waiting
    when the queued records run out.
   */
  function ReadParsed(rs: seq<InputRecord>): (r: Option<(TuiEvents, seq<InputRecord>)>)
    ensures r.Some? ==> r.value.0 != Ignore && |r.value.1| < |rs|
    decreases |rs|
  {
    if rs == [] then None
    else if rs[0].eventType != KEY_EVENT || !rs[0].keyEvent.keyDown then ReadParsed(rs[1..])
    else
      var (e, rest) := ParseKeyEventData(rs[0].keyEvent, rs[1..]);
      if e == Ignore then ReadParsed(rest) else Some((e, rest))
  }

  // ---------------------------------------------------------------------------
  // Properties
  // ---------------------------------------------------------------------------

  /** Records other than key-down key events are skipped by `read_parsed`. */
  lemma ReadParsedSkips(r: InputRecord, rs: seq<InputRecord>)
    requires !IsKeyDown(r)
    ensures ReadParsed([r] + rs) == ReadParsed(rs)
  {
    assert ([r] + rs)[1..] == rs;
  }

  /** Read against the filtered records, the first key-down record is the one decoded. */
  lemma {:induction false} ReadParsedFirstKeyDown(rs: seq<InputRecord>)
    ensures ReadParsed(rs).Some? ==> exists i :: 0 <= i < |rs| && IsKeyDown(rs[i])
    decreases |rs|
  {
    if rs != [] && !IsKeyDown(rs[0]) {
      ReadParsedFirstKeyDown(rs[1..]);
      if ReadParsed(rs).Some? {
        var i :| 0 <= i < |rs[1..]| && IsKeyDown(rs[1..][i]);
        assert IsKeyDown(rs[i + 1]);
      }
    }
  }

  /** The named virtual keys decode to their fixed events whatever character the record holds. */
  lemma VirtualKeyPrecedence(k: KeyEventRecord, rs: seq<InputRecord>)
    ensures var r := ParseKeyEventData(k, rs); var vk := k.virtualKeyCode;
      && (vk == VK_RETURN ==> r == (Enter, rs))
      && (vk == VK_LEFT ==> r == (LeftArrow, rs))
      && (vk == VK_UP ==> r == (UpArrow, rs))
      && (vk == VK_RIGHT ==> r == (RightArrow, rs))
      && (vk == VK_DOWN ==> r == (DownArrow, rs))
      && (vk == VK_BACK ==> r == (Backspace, rs))
      && (vk == VK_DELETE ==> r == (Delete, rs))
      && (vk == VK_SPACE ==> r == (Space, rs))
      && (vk == VK_TAB ==> r == (Tab, rs))
      && (vk == VK_SHIFT ==> r == (Ignore, rs))
  {
  }

  /** Any other key is decoded from its UTF-16 character; a surrogate unit is an error. */
  lemma CharacterFallback(k: KeyEventRecord, rs: seq<InputRecord>)
    requires k.virtualKeyCode !in {VK_RETURN, VK_LEFT, VK_UP, VK_RIGHT, VK_DOWN, VK_BACK, VK_DELETE,
                                   VK_SPACE, VK_TAB, VK_ESCAPE, VK_SHIFT}
    ensures var r := ParseKeyEventData(k, rs); var u := k.unicodeChar;
      && (IsSurrogate(u) ==> r == (Error, rs))
      && (0x20 <= u <= 0x7D ==> r == (AsciiReadable(u as char), rs))
      && (u == 0 ==> r == (Ignore, rs))
      && (1 <= u <= 26 ==> r == (Control((u + 0x40) as char), rs) && 'A' <= r.0.ch <= 'Z')
      && (u == 0x1B ==> r == EscapeRecords(rs))
      && (0x1C <= u <= 0x1F || 0x7E <= u < 0xD800 || 0xDFFF < u ==> r == (Other(u as char), rs))
  {
  }

  /**
    Against the Unix decoder: a key without a virtual-key code of its own
    decodes like the same byte on Unix, for every character below 256 but
    tab, LF, CR, ESC, space and DEL.
   */
  lemma CharactersAsOnUnix(k: KeyEventRecord, rs: seq<InputRecord>)
    requires k.virtualKeyCode !in {VK_RETURN, VK_LEFT, VK_UP, VK_RIGHT, VK_DOWN, VK_BACK, VK_DELETE,
                                   VK_SPACE, VK_TAB, VK_ESCAPE, VK_SHIFT}
    requires k.unicodeChar < 0x100 && k.unicodeChar !in {0x09, 0x0A, 0x0D, 0x1B, 0x20, 0x7F}
    ensures ParseKeyEventData(k, rs) == (InputParser.Classify(k.unicodeChar as char), rs)
  {
  }

  /**
    The characters where the two decoders part: Unix gives them their own
    events, while on Windows those keys come with virtual-key codes, so the
    character alone decodes generically.
   */
  lemma CharactersUnlikeUnix(k: KeyEventRecord, rs: seq<InputRecord>)
    requires k.virtualKeyCode !in {VK_RETURN, VK_LEFT, VK_UP, VK_RIGHT, VK_DOWN, VK_BACK, VK_DELETE,
                                   VK_SPACE, VK_TAB, VK_ESCAPE, VK_SHIFT}
    ensures var r := ParseKeyEventData(k, rs).0; var u := k.unicodeChar;
      && (u == 0x20 ==> r == AsciiReadable(' ') && InputParser.Classify(' ') == Space)
      && (u == 0x09 ==> r == Control('I') && InputParser.Classify('\t') == Tab)
      && (u == 0x0A ==> r == Control('J') && InputParser.Classify('\n') == Enter)
      && (u == 0x0D ==> r == Control('M') && InputParser.Classify('\r') == Enter)
      && (u == 0x7F ==> r == Other(0x7F as char) && InputParser.Classify(0x7F as char) == Backspace)
  {
  }

  /** With nothing queued behind it, `ESC` is the Escape key. */
  lemma LoneEscape(rs: seq<InputRecord>)
    requires KeyChars(rs) == []
    ensures EscapeRecords(rs) == (Escape, [])
  {
  }

  /** `ESC` followed by anything but `[`, or `ESC [` by anything but `<`, is an error that drains the input. */
  lemma EscapeNotMouse(b: ByteChar, w: seq<ByteChar>)
    ensures b != '[' ==> HandleEscapeSequence([b] + w) == (Error, [])
    ensures b != '<' ==> HandleEscapeSequence(['[', b] + w) == (Error, [])
    ensures HandleEscapeSequence("[") == (Error, [])
  {
    ReadFront(b, w);
    ReadFront('[', [b] + w);
    assert ['[', b] + w == ['['] + ([b] + w);
    ReadFront('[', []);
    assert "[" == ['['] + [];
  }

  /** The cursor-key sequences are not recognised on this path: the keys arrive as virtual-key codes. */
  lemma ArrowSequencesAreErrors(b: ByteChar, w: seq<ByteChar>)
    requires b in "ABCD3"
    ensures HandleEscapeSequence(['[', b] + w) == (Error, [])
  {
    EscapeNotMouse(b, w);
  }

  /** `ESC [ <` runs the mouse decoder, draining after `Error` and `Ignore`. */
  lemma EscapeMouse(w: seq<ByteChar>)
    ensures var m := HandleMouseEvents(w);
      HandleEscapeSequence("[<" + w) == if m.0 == Error || m.0 == Ignore then (m.0, []) else m
  {
    ReadFront('[', "<" + w);
    ReadFront('<', w);
    assert "[<" + w == ['['] + (['<'] + w);
  }

  /** Mouse reports decode on the Windows path as on the Unix one. */
  lemma MouseReportDecodesHere(e: TuiEvents, dx: seq<ByteChar>, dy: seq<ByteChar>, tail: seq<ByteChar>)
    requires e.IsMouse() && IsNumeral(dx, e.at.0) && IsNumeral(dy, e.at.1)
    ensures HandleEscapeSequence("[<" + Report(e, dx, dy) + tail) == (e, tail)
  {
    MouseReportDecodes(e, dx, dy, tail);
    EscapeMouse(Report(e, dx, dy) + tail);
    Assoc("[<", Report(e, dx, dy), tail);
  }

  lemma Assoc(a: seq<ByteChar>, b: seq<ByteChar>, c: seq<ByteChar>)
    ensures a + b + c == a + (b + c)
  {
  }

  /** `read_parsed` never returns `Ignore`; a key-down record that decodes to `Ignore` is passed over. */
  lemma IgnoredKeyIsSkipped(r: InputRecord, rs: seq<InputRecord>)
    requires IsKeyDown(r) && ParseKeyEventData(r.keyEvent, rs).0 == Ignore
    ensures ReadParsed([r] + rs) == ReadParsed(ParseKeyEventData(r.keyEvent, rs).1)
  {
    assert ([r] + rs)[1..] == rs;
  }
}
