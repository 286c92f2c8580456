/** The decoded input event (src/tui_events.rs, extended with the mouse variants the decoders produce). */
module TuiEvents {
  import opened Wrappers
  import opened Decimal

  /** A mouse position `(x, y)`: terminal column and row as reported, 1-based. */
  type Coord = (uint16, uint16)

  datatype TuiEvents =
    | Enter | LeftArrow | RightArrow | UpArrow | DownArrow
    | Escape | Backspace | Delete | Tab | Space
    | AsciiReadable(ch: char)
    | Control(ch: char)
    | Other(ch: char)
    | LeftClick(at: Coord) | MiddleClick(at: Coord) | RightClick(at: Coord)
    | MouseMove(at: Coord)
    | LeftDrag(at: Coord) | MiddleDrag(at: Coord) | RightDrag(at: Coord)
    | ScrollUp(at: Coord) | ScrollDown(at: Coord)
    | Ignore
    | Error
  {
    predicate IsMouse() {
      LeftClick? || MiddleClick? || RightClick? || MouseMove?
      || LeftDrag? || MiddleDrag? || RightDrag? || ScrollUp? || ScrollDown?
    }

    /** `eq_or_none`: `Some(())` exactly when the event equals `expected`. */
    function EqOrNone(expected: TuiEvents): (r: Option<()>)
      ensures r.Some? <==> this == expected
    {
      if this == expected then Some(()) else None
    }

    /**
      `get_digit`: the digit an `AsciiReadable` key stands for. The source
      casts the char with `as u8`, which keeps only its low byte.
     */
    function GetDigit(): (r: Option<nat>)
      ensures r.Some? ==> AsciiReadable? && r.value < 10
      ensures r.Some? ==> DigitChar(r.value) as int == ch as int % 0x100
    {
      if AsciiReadable? then
        var b := ch as int % 0x100;
        if 0x30 <= b <= 0x39 then Some(b - 0x30) else None
      else None
    }
  }

  /** `eq_or_none` is reflexive. */
  lemma EqOrNoneReflexive(e: TuiEvents)
    ensures e.EqOrNone(e) == Some(())
  {
  }

  /** On characters that fit in a byte, `get_digit` is exactly decimal-digit recognition. */
  lemma GetDigitOfByte(c: char)
    requires c as int < 0x100
    ensures AsciiReadable(c).GetDigit() == if IsDigit(c) then Some(DigitValue(c)) else None
  {
  }

  /** The `as u8` truncation: a wide char whose low byte is a digit counts as that digit. */
  lemma GetDigitTruncates()
    ensures AsciiReadable('ķ').GetDigit() == Some(7)
  {
  }
}
