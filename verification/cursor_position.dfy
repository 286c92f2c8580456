/**
  Placing the cursor and asking where it is (src/tui_terminal.rs:194-263).
  `set_cursor_position(x, y)` writes CUP (ECMA-48 section 8.3.21) with the
  row `y` first; `get_cursor_position` writes DSR 6 (section 8.3.35) and
  reads the terminal's answer, CPR `ESC [ row ; column R` (section 8.3.14),
  returning `(column, row)`. Both numbers are accumulated with the
  overflow-checked `u16` step.
 */
module CursorPosition {
  import opened Wrappers
  import opened Decimal
  import opened InputSource
  import UnixTuiIo
  import Sgr

  /** `CursorPositionError` of src/tui_errors.rs. */
  datatype CursorPositionError =
    | IOError
    | OverflowError
    | TuiUnexpectedInputError(expected: char, received: char)

  /** `set_cursor_position(x, y)`: column `x`, row `y`, written row first. */
  function SetCursorPosition(x: uint16, y: uint16): (s: string)
    ensures |s| >= 6 && s[0] == ESC && s[1] == '[' && s[|s| - 1] == 'H'
  {
    [ESC] + "[" + ToDecimal(y) + ";" + ToDecimal(x) + "H"
  }

  /** The request `get_cursor_position` writes: device status report 6. */
  function CursorPositionRequest(): string {
    [ESC] + "[6n"
  }

  /** The backend whose `read_raw` reads the reply. */
  datatype Platform = Unix | Windows

  /**
    `read_raw` while the reply is read. On Unix it is always `Some`: a read
    that fails yields NUL (src/tui_io/unix_tui_io.rs:65-72, 93-95). On
    Windows a failing console read is `None` (src/tui_io/windows_tui_io.rs:202-222),
    which is what a reply cut short stands for there.
   */
  function ReadReply(p: Platform, v: seq<ByteChar>): (r: (Option<ByteChar>, seq<ByteChar>))
    ensures v != [] ==> r == (Some(v[0]), v[1..])
    ensures v == [] ==> r == (if p == Unix then Some(UnixTuiIo.NUL) else None, [])
  {
    if p == Unix then UnixTuiIo.ReadRaw(v) else ReadRawImmediate(v)
  }

  lemma ReadReplyFront(p: Platform, b: ByteChar, w: seq<ByteChar>)
    ensures ReadReply(p, [b] + w) == (Some(b), w)
  {
    assert ([b] + w)[1..] == w;
  }

  /** What a reply cut short reads as: NUL on Unix, a failed read on Windows. */
  function CutShortError(p: Platform, expected: char): CursorPositionError {
    if p == Unix then TuiUnexpectedInputError(expected, UnixTuiIo.NUL) else IOError
  }

  /**
    One number of the report: digits accumulated onto `acc` until the byte
    `stop`. A failed read is an `IOError`, a number past 65535 an
    `OverflowError`, any other byte unexpected input.
   */
  function ReadNumber(p: Platform, v: seq<ByteChar>, acc: uint16, stop: ByteChar)
    : (r: (Result<uint16, CursorPositionError>, seq<ByteChar>))
    ensures |r.1| <= |v|
    ensures r.0.Ok? ==> r.0.value >= acc
    decreases |v|
  {
    var (c, rest) := ReadReply(p, v);
    match c
    case None => (Err(IOError), rest)
    case Some(b) =>
      if IsDigit(b) then
        match AccumulateU16(acc, DigitValue(b))
        case None => (Err(OverflowError), rest)
        case Some(next) => ReadNumber(p, rest, next, stop)
      else if b == stop then (Ok(acc), rest)
      else (Err(TuiUnexpectedInputError(stop, b)), rest)
  }

  /**
    `get_cursor_position` on the pending input `v`: the position as
    `(column, row)` and the input left over. A missing `[` is reported with
    `ESC` as the expected byte, as the code does.
   */
  function GetCursorPosition(p: Platform, v: seq<ByteChar>)
    : (r: (Result<(uint16, uint16), CursorPositionError>, seq<ByteChar>))
    ensures |r.1| <= |v|
  {
    var (first, rest1) := ReadReply(p, v);
    match first
    case None => (Err(IOError), rest1)
    case Some(b1) =>
      if b1 != ESC then (Err(TuiUnexpectedInputError(ESC, b1)), rest1)
      else
        var (second, rest2) := ReadReply(p, rest1);
        match second
        case None => (Err(IOError), rest2)
        case Some(b2) =>
          if b2 != '[' then (Err(TuiUnexpectedInputError(ESC, b2)), rest2)
          else
            var (row, rest3) := ReadNumber(p, rest2, 0, ';');
            match row
            case Err(e) => (Err(e), rest3)
            case Ok(y) =>
              var (col, rest4) := ReadNumber(p, rest3, 0, 'R');
              match col
              case Err(e) => (Err(e), rest4)
              case Ok(x) => (Ok((x, y)), rest4)
  }

  // ---------------------------------------------------------------------------
  // Reading one number
  // ---------------------------------------------------------------------------

  /** A digit run ended by `stop` reads as its value when it fits in `u16`, and overflows otherwise. */
  lemma {:induction false} ReadNumberDecodes(p: Platform, ds: seq<ByteChar>, stop: ByteChar, tail: seq<ByteChar>, acc: uint16)
    requires AllDigits(ds) && !IsDigit(stop)
    ensures ReadNumber(p, ds + [stop] + tail, acc, stop).0
         == if Fold(acc, ds) <= U16_MAX then Ok(Fold(acc, ds)) else Err(OverflowError)
    ensures Fold(acc, ds) <= U16_MAX ==> ReadNumber(p, ds + [stop] + tail, acc, stop).1 == tail
    decreases |ds|
  {
    if ds == [] {
      ReadReplyFront(p, stop, tail);
      assert ds + [stop] + tail == [stop] + tail;
    } else {
      var w := ds[1..] + [stop] + tail;
      ReadReplyFront(p, ds[0], w);
      assert ds + [stop] + tail == [ds[0]] + w;
      var n := acc * 10 + DigitValue(ds[0]);
      if n <= U16_MAX {
        ReadNumberDecodes(p, ds[1..], stop, tail, n);
      } else {
        FoldGrows(n, ds[1..]);
      }
    }
  }

  /**
    A number is only accepted as a digit run ended by `stop`. The stops the
    code uses are `;` and `R`; a NUL stop would accept the NUL a failed Unix
    read makes up.
   */
  lemma {:induction false} ReadNumberSound(p: Platform, v: seq<ByteChar>, acc: uint16, stop: ByteChar)
    requires stop != UnixTuiIo.NUL && ReadNumber(p, v, acc, stop).0.Ok?
    ensures exists ds: seq<ByteChar> :: AllDigits(ds) && Fold(acc, ds) == ReadNumber(p, v, acc, stop).0.value
                       && v == ds + [stop] + ReadNumber(p, v, acc, stop).1
    decreases |v|
  {
    var r := ReadNumber(p, v, acc, stop);
    if v == [] {
      assert false;
    } else if IsDigit(v[0]) {
      var n := acc * 10 + DigitValue(v[0]);
      ReadNumberSound(p, v[1..], n, stop);
      var ds: seq<ByteChar> :| AllDigits(ds) && Fold(n, ds) == r.0.value && v[1..] == ds + [stop] + r.1;
      var ds' := [v[0]] + ds;
      assert ds'[1..] == ds;
      assert AllDigits(ds') && Fold(acc, ds') == r.0.value && v == ds' + [stop] + r.1;
    } else {
      var ds: seq<ByteChar> := [];
      assert v == ds + [stop] + r.1;
    }
  }

  /** Digits whose value passes 65535 are an `OverflowError`, whatever follows them. */
  lemma {:induction false} ReadNumberOverflows(p: Platform, ds: seq<ByteChar>, w: seq<ByteChar>, acc: uint16, stop: ByteChar)
    requires AllDigits(ds) && Fold(acc, ds) > U16_MAX
    ensures ReadNumber(p, ds + w, acc, stop).0 == Err(OverflowError)
    decreases |ds|
  {
    var rest := ds[1..] + w;
    ReadReplyFront(p, ds[0], rest);
    assert ds + w == [ds[0]] + rest;
    var n := acc * 10 + DigitValue(ds[0]);
    if n <= U16_MAX {
      ReadNumberOverflows(p, ds[1..], w, n, stop);
    }
  }

  /** Digits that run into the end of the reply: NUL on Unix, a failed read on Windows. */
  lemma {:induction false} ReadNumberCutShort(p: Platform, ds: seq<ByteChar>, acc: uint16, stop: ByteChar)
    requires AllDigits(ds) && Fold(acc, ds) <= U16_MAX && stop != UnixTuiIo.NUL
    ensures ReadNumber(p, ds, acc, stop).0 == Err(CutShortError(p, stop))
    decreases |ds|
  {
    if ds != [] {
      ReadReplyFront(p, ds[0], ds[1..]);
      assert ds == [ds[0]] + ds[1..];
      FoldGrows(acc * 10 + DigitValue(ds[0]), ds[1..]);
      ReadNumberCutShort(p, ds[1..], acc * 10 + DigitValue(ds[0]), stop);
    }
  }

  // ---------------------------------------------------------------------------
  // The whole report
  // ---------------------------------------------------------------------------

  /** The report a terminal sends with the row numeral `dy` and the column numeral `dx`. */
  function CprReport(dy: seq<ByteChar>, dx: seq<ByteChar>): seq<ByteChar> {
    [ESC, '['] + dy + [';'] + dx + ['R']
  }

  /** Reading `ESC [` off the front of a reply that starts with it. */
  lemma CsiFront(p: Platform, w: seq<ByteChar>)
    ensures ReadReply(p, [ESC, '['] + w) == (Some(ESC), ['['] + w)
    ensures ReadReply(p, ['['] + w) == (Some('['), w)
  {
    ReadReplyFront(p, ESC, ['['] + w);
    assert [ESC, '['] + w == [ESC] + (['['] + w);
    ReadReplyFront(p, '[', w);
  }

  /** After `ESC [` the reply is the row, then the column. */
  lemma AfterCsi(p: Platform, w: seq<ByteChar>)
    ensures GetCursorPosition(p, [ESC, '['] + w)
         == var (row, rest3) := ReadNumber(p, w, 0, ';');
            match row
            case Err(e) => (Err(e), rest3)
            case Ok(y) =>
              var (col, rest4) := ReadNumber(p, rest3, 0, 'R');
              match col
              case Err(e) => (Err(e), rest4)
              case Ok(x) => (Ok((x, y)), rest4)
  {
    CsiFront(p, w);
  }

  /**
    A report whose numerals fit in `u16` reads back as `(column, row)` and
    consumes exactly the report; leading zeros are accepted.
   */
  lemma ReportDecodes(p: Platform, dy: seq<ByteChar>, dx: seq<ByteChar>, tail: seq<ByteChar>)
    requires AllDigits(dy) && AllDigits(dx) && Value(dy) <= U16_MAX && Value(dx) <= U16_MAX
    ensures GetCursorPosition(p, CprReport(dy, dx) + tail) == (Ok((Value(dx), Value(dy))), tail)
  {
    var w := dy + [';'] + (dx + ['R'] + tail);
    assert CprReport(dy, dx) + tail == [ESC, '['] + w;
    AfterCsi(p, w);
    ReadNumberDecodes(p, dy, ';', dx + ['R'] + tail, 0);
    ReadNumberDecodes(p, dx, 'R', tail, 0);
  }

  /** An accepted reply starts with CSI and holds two accepted numbers. */
  lemma AcceptedShape(p: Platform, v: seq<ByteChar>)
    requires GetCursorPosition(p, v).0.Ok?
    ensures |v| >= 2 && v[0] == ESC && v[1] == '['
    ensures var (row, rest3) := ReadNumber(p, v[2..], 0, ';');
      row.Ok? && var (col, rest4) := ReadNumber(p, rest3, 0, 'R');
      col.Ok? && GetCursorPosition(p, v) == (Ok((col.value, row.value)), rest4)
  {
    if |v| >= 2 && v[0] == ESC && v[1] == '[' {
      assert v == [ESC, '['] + v[2..];
      AfterCsi(p, v[2..]);
    }
  }

  /** Only a well-formed report is accepted: the converse of `ReportDecodes`. */
  lemma ReportSound(p: Platform, v: seq<ByteChar>)
    requires GetCursorPosition(p, v).0.Ok?
    ensures var (x, y) := GetCursorPosition(p, v).0.value;
      exists dy: seq<ByteChar>, dx: seq<ByteChar> :: AllDigits(dy) && AllDigits(dx)
        && Value(dy) == y && Value(dx) == x && v == CprReport(dy, dx) + GetCursorPosition(p, v).1
  {
    AcceptedShape(p, v);
    var rest2 := v[2..];
    ReadNumberSound(p, rest2, 0, ';');
    var (row, rest3) := ReadNumber(p, rest2, 0, ';');
    var dy: seq<ByteChar> :| AllDigits(dy) && Fold(0, dy) == row.value && rest2 == dy + [';'] + rest3;
    ReadNumberSound(p, rest3, 0, 'R');
    var (col, rest4) := ReadNumber(p, rest3, 0, 'R');
    var dx: seq<ByteChar> :| AllDigits(dx) && Fold(0, dx) == col.value && rest3 == dx + ['R'] + rest4;
    ReportLayout(v, dy, dx, rest3, rest4);
  }

  lemma ReportLayout(v: seq<ByteChar>, dy: seq<ByteChar>, dx: seq<ByteChar>, rest3: seq<ByteChar>, rest4: seq<ByteChar>)
    requires |v| >= 2 && v[0] == ESC && v[1] == '['
    requires v[2..] == dy + [';'] + rest3 && rest3 == dx + ['R'] + rest4
    ensures v == CprReport(dy, dx) + rest4
  {
    assert v == [v[0], v[1]] + v[2..];
  }

  /**
    A row past 65535 is an `OverflowError`, never a wrapped value, whatever
    follows its digits: the check fires before the terminator is read.
   */
  lemma RowOverflow(p: Platform, dy: seq<ByteChar>, w: seq<ByteChar>)
    requires AllDigits(dy) && Value(dy) > U16_MAX
    ensures GetCursorPosition(p, [ESC, '['] + dy + w).0 == Err(OverflowError)
  {
    assert [ESC, '['] + dy + w == [ESC, '['] + (dy + w);
    AfterCsi(p, dy + w);
    ReadNumberOverflows(p, dy, w, 0, ';');
  }

  /** A column past 65535 is an `OverflowError`, whatever follows its digits. */
  lemma ColumnOverflow(p: Platform, dy: seq<ByteChar>, dx: seq<ByteChar>, w: seq<ByteChar>)
    requires AllDigits(dy) && Value(dy) <= U16_MAX && AllDigits(dx) && Value(dx) > U16_MAX
    ensures GetCursorPosition(p, [ESC, '['] + dy + [';'] + dx + w).0 == Err(OverflowError)
  {
    var u := dy + [';'] + (dx + w);
    assert [ESC, '['] + dy + [';'] + dx + w == [ESC, '['] + u;
    AfterCsi(p, u);
    ReadNumberDecodes(p, dy, ';', dx + w, 0);
    ReadNumberOverflows(p, dx, w, 0, 'R');
  }

  /**
    The error cases at the front of the reply. A reply that ends early reads
    NUL on Unix, so it is unexpected input there; on Windows it is an `IOError`.
   */
  lemma ReplyErrors(p: Platform, v: seq<ByteChar>)
    ensures v == [] ==> GetCursorPosition(p, v).0 == Err(CutShortError(p, ESC))
    ensures v != [] && v[0] != ESC ==> GetCursorPosition(p, v).0 == Err(TuiUnexpectedInputError(ESC, v[0]))
    ensures |v| == 1 && v[0] == ESC ==> GetCursorPosition(p, v).0 == Err(CutShortError(p, ESC))
    ensures |v| >= 2 && v[0] == ESC && v[1] != '[' ==> GetCursorPosition(p, v).0 == Err(TuiUnexpectedInputError(ESC, v[1]))
  {
  }

  /** A reply that ends inside the row's digits. */
  lemma RowCutShort(p: Platform, dy: seq<ByteChar>)
    requires AllDigits(dy) && Value(dy) <= U16_MAX
    ensures GetCursorPosition(p, [ESC, '['] + dy).0 == Err(CutShortError(p, ';'))
  {
    AfterCsi(p, dy);
    ReadNumberCutShort(p, dy, 0, ';');
  }

  /** A byte other than a digit or `;` in the row is unexpected input, reported against `;`. */
  lemma RowUnexpected(p: Platform, dy: seq<ByteChar>, b: ByteChar, w: seq<ByteChar>)
    requires AllDigits(dy) && Value(dy) <= U16_MAX && !IsDigit(b) && b != ';'
    ensures GetCursorPosition(p, [ESC, '['] + dy + [b] + w).0 == Err(TuiUnexpectedInputError(';', b))
  {
    assert [ESC, '['] + dy + [b] + w == [ESC, '['] + (dy + [b] + w);
    AfterCsi(p, dy + [b] + w);
    ReadNumberStops(p, dy, b, w, 0, ';');
  }

  /** A digit run ended by a byte other than `stop` is unexpected input, if it did not overflow first. */
  lemma {:induction false} ReadNumberStops(p: Platform, ds: seq<ByteChar>, b: ByteChar, tail: seq<ByteChar>, acc: uint16, stop: ByteChar)
    requires AllDigits(ds) && !IsDigit(b) && b != stop && Fold(acc, ds) <= U16_MAX
    ensures ReadNumber(p, ds + [b] + tail, acc, stop).0 == Err(TuiUnexpectedInputError(stop, b))
    decreases |ds|
  {
    if ds == [] {
      ReadReplyFront(p, b, tail);
      assert ds + [b] + tail == [b] + tail;
    } else {
      var w := ds[1..] + [b] + tail;
      ReadReplyFront(p, ds[0], w);
      assert ds + [b] + tail == [ds[0]] + w;
      var n := acc * 10 + DigitValue(ds[0]);
      FoldGrows(n, ds[1..]);
      ReadNumberStops(p, ds[1..], b, tail, n, stop);
    }
  }

  // ---------------------------------------------------------------------------
  // Placing and reading back
  // ---------------------------------------------------------------------------

  /**
    The terminal's side: the row and column a CUP sequence moves to, read
    with the standard's parameter syntax.
   */
  function CupTarget(s: string): Option<(nat, nat)> {
    if |s| < 3 || s[0] != ESC || s[1] != '[' || s[|s| - 1] != 'H' then None
    else match Sgr.SplitNums(s[2..|s| - 1])
      case Some(ps) => if |ps| == 2 then Some((ps[0], ps[1])) else None
      case None => None
  }

  /** `set_cursor_position(x, y)` moves to row `y`, column `x`. */
  lemma SetCursorTarget(x: uint16, y: uint16)
    ensures CupTarget(SetCursorPosition(x, y)) == Some((y, x))
  {
    JoinTwo(y, x);
    CupLayout(ToDecimal(y), ToDecimal(x));
    CupOf(Sgr.JoinNums([y, x]));
    Sgr.SplitJoin([y, x]);
  }

  /** A cursor-position sequence is read by splitting what lies between CSI and `H`. */
  lemma CupOf(body: string)
    ensures CupTarget([ESC] + "[" + body + "H")
         == match Sgr.SplitNums(body)
            case Some(ps) => if |ps| == 2 then Some((ps[0], ps[1])) else None
            case None => None
  {
    var s := [ESC] + "[" + body + "H";
    assert s[2..|s| - 1] == body;
  }

  lemma CupLayout(a: string, b: string)
    ensures [ESC] + "[" + a + ";" + b + "H" == [ESC] + "[" + (a + ";" + b) + "H"
  {
  }

  lemma JoinTwo(a: nat, b: nat)
    ensures Sgr.JoinNums([a, b]) == ToDecimal(a) + ";" + ToDecimal(b)
  {
    Sgr.JoinCons(a, [b]);
    assert [a, b] == [a] + [b];
  }

  /**
    Setting the cursor and asking for it agree in argument order: after
    `set_cursor_position(x, y)` the terminal reports the row and column it
    moved to, and `get_cursor_position` reads that report as `(x, y)`.
   */
  lemma SetThenGet(p: Platform, x: uint16, y: uint16, tail: seq<ByteChar>)
    ensures CupTarget(SetCursorPosition(x, y)).Some?
    ensures var (row, col) := CupTarget(SetCursorPosition(x, y)).value;
      row <= U16_MAX && col <= U16_MAX
      && GetCursorPosition(p, CprReport(ToDecimal(row), ToDecimal(col)) + tail) == (Ok((x, y)), tail)
  {
    SetCursorTarget(x, y);
    ValueOfToDecimal(x);
    ValueOfToDecimal(y);
    ReportDecodes(p, ToDecimal(y), ToDecimal(x), tail);
  }
}
