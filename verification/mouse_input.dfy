/**
  The xterm SGR (mode 1006) mouse-report grammar `ESC [ < Cb ; Px ; Py M|m`
  after its `ESC [ <` prefix (src/tui_io/mouse_input.rs; the Unix parser in
  src/tui_io/input_parser.rs:65-156 carries an identical copy). Every read
  is an immediate one, so running out of pending input ends the report.
  Each function takes the pending characters and returns what it decoded
  with the characters left over.
 */
module MouseInput {
  import opened Wrappers
  import opened Decimal
  import opened TuiEvents
  import opened InputSource

  /**
    `get_u16` from accumulator `acc`, with the overflow check done right:
    a digit that would take the accumulator past `u16::MAX` ends the parse
    with `None` (the guard pattern of src/tui_terminal.rs:225-231). The
    first non-digit is consumed and returned as the terminator.
   */
  function GetU16From(acc: uint16, v: seq<ByteChar>): (r: (Option<(uint16, ByteChar)>, seq<ByteChar>))
    ensures |r.1| <= |v|
    decreases |v|
  {
    var (c, rest) := ReadRawImmediate(v);
    match c
    case None => (None, rest)
    case Some(next) =>
      if IsDigit(next) then
        match AccumulateU16(acc, DigitValue(next))
        case None => (None, rest)
        case Some(n) => GetU16From(n, rest)
      else (Some((acc, next)), rest)
  }

  function GetU16(v: seq<ByteChar>): (r: (Option<(uint16, ByteChar)>, seq<ByteChar>))
    ensures |r.1| <= |v|
  {
    GetU16From(0, v)
  }

  /**
    `get_u16` exactly as written: the guard `num > u16::MAX` can never hold
    for a `u16`, so `num *= 10` is unchecked. This is its release-build
    meaning, where the product wraps modulo 2^16 (a debug build panics).
   */
  function GetU16AsWrittenFrom(acc: uint16, v: seq<ByteChar>): (r: (Option<(uint16, ByteChar)>, seq<ByteChar>))
    ensures |r.1| <= |v|
    decreases |v|
  {
    var (c, rest) := ReadRawImmediate(v);
    match c
    case None => (None, rest)
    case Some(next) =>
      if IsDigit(next) then
        var digit := DigitValue(next);
        var num: uint16 := (acc * 10) % 0x1_0000;
        if digit > U16_MAX - num then (None, rest)
        else GetU16AsWrittenFrom(num + digit, rest)
      else (Some((acc, next)), rest)
  }

  /** `get_coordinates`: `';' x ';' y t`, returning `((x, y), t)`. */
  function GetCoordinates(v: seq<ByteChar>): (r: (Option<(Coord, ByteChar)>, seq<ByteChar>))
    ensures |r.1| <= |v|
  {
    var (c, rest) := ReadRawImmediate(v);
    if c != Some(';') then (None, rest)
    else
      var (xr, rest2) := GetU16(rest);
      if xr.None? || xr.value.1 != ';' then (None, rest2)
      else
        var (yr, rest3) := GetU16(rest2);
        match yr
        case None => (None, rest3)
        case Some((y, t)) => (Some(((xr.value.0, y), t)), rest3)
  }

  /** The button-press event the first selector byte `'0'`, `'1'` or `'2'` stands for. */
  function Click(button: char, at: Coord): TuiEvents
    requires button in "012"
  {
    if button == '0' then LeftClick(at) else if button == '1' then MiddleClick(at) else RightClick(at)
  }

  /** `handle_mouse_events`: dispatch on the first selector byte. */
  function HandleMouseEvents(v: seq<ByteChar>): (r: (TuiEvents, seq<ByteChar>))
    ensures r.0.IsMouse() || r.0 == Ignore || r.0 == Error
    ensures |r.1| <= |v|
  {
    var (sel, rest) := ReadRawImmediate(v);
    match sel
    case None => (Error, rest)
    case Some(b) =>
      if b in "012" then
        var (coords, rest2) := GetCoordinates(rest);
        if coords.Some? && coords.value.1 == 'M' then (Click(b, coords.value.0), rest2)
        else if coords.Some? && coords.value.1 == 'm' then (Ignore, rest2)
        else (Error, rest2)
      else if b == '3' then HandleMouseMoveEvent(rest)
      else if b == '6' then HandleScrollEvent(rest)
      else (Error, rest)
  }

  /** `handle_mouse_move_event`: selectors 32-34 are drags ending in `'M'`, 35 a motion ending in `'m'`. */
  function HandleMouseMoveEvent(v: seq<ByteChar>): (r: (TuiEvents, seq<ByteChar>))
    ensures r.0.LeftDrag? || r.0.MiddleDrag? || r.0.RightDrag? || r.0.MouseMove? || r.0 == Error
    ensures |r.1| <= |v|
  {
    var (sel, rest) := ReadRawImmediate(v);
    match sel
    case None => (Error, rest)
    case Some(b) =>
      if b in "2345" then
        var (coords, rest2) := GetCoordinates(rest);
        if coords.None? then (Error, rest2)
        else
          var (at, t) := coords.value;
          if b == '2' && t == 'M' then (LeftDrag(at), rest2)
          else if b == '3' && t == 'M' then (MiddleDrag(at), rest2)
          else if b == '4' && t == 'M' then (RightDrag(at), rest2)
          else if b == '5' && t == 'm' then (MouseMove(at), rest2)
          else (Error, rest2)
      else (Error, rest)
  }

  /** `handle_scroll_event`: selectors 64 and 65, both ending in `'M'`. */
  function HandleScrollEvent(v: seq<ByteChar>): (r: (TuiEvents, seq<ByteChar>))
    ensures r.0.ScrollUp? || r.0.ScrollDown? || r.0 == Error
    ensures |r.1| <= |v|
  {
    var (sel, rest) := ReadRawImmediate(v);
    match sel
    case None => (Error, rest)
    case Some(b) =>
      if b in "45" then
        var (coords, rest2) := GetCoordinates(rest);
        if coords.None? || coords.value.1 != 'M' then (Error, rest2)
        else if b == '4' then (ScrollUp(coords.value.0), rest2)
        else (ScrollDown(coords.value.0), rest2)
      else (Error, rest)
  }

  // ---------------------------------------------------------------------------
  // The report format: xterm's, except the motion final byte, which mirrors the decoder
  // ---------------------------------------------------------------------------

  /** The button code `Cb` of a mouse event, in decimal. */
  function Selector(e: TuiEvents): seq<ByteChar>
    requires e.IsMouse()
  {
    match e
    case LeftClick(_) => "0"
    case MiddleClick(_) => "1"
    case RightClick(_) => "2"
    case LeftDrag(_) => "32"
    case MiddleDrag(_) => "33"
    case RightDrag(_) => "34"
    case MouseMove(_) => "35"
    case ScrollUp(_) => "64"
    case ScrollDown(_) => "65"
  }

  /**
    The final byte: `'M'`, except `'m'` for `MouseMove`. That one mirrors
    what the decoder accepts, not what xterm sends.
   */
  function Final(e: TuiEvents): ByteChar
    requires e.IsMouse()
  {
    if e.MouseMove? then 'm' else 'M'
  }

  /** A report of `e` after `ESC [ <`, with the numerals `dx` and `dy` for its coordinates. */
  function Report(e: TuiEvents, dx: seq<ByteChar>, dy: seq<ByteChar>): seq<ByteChar>
    requires e.IsMouse()
  {
    Selector(e) + ";" + dx + ";" + dy + [Final(e)]
  }

  /** `ds` is a decimal numeral of `n`: possibly empty (for 0), possibly zero-padded. */
  predicate IsNumeral(ds: string, n: nat) {
    AllDigits(ds) && Value(ds) == n
  }

  // ---------------------------------------------------------------------------
  // Number parsing
  // ---------------------------------------------------------------------------

  /**
    The complete behaviour of `get_u16` (corrected): it consumes the maximal
    digit run and one terminator, and yields the run's value on top of
    `acc` unless the input ran out first or the value exceeds `u16::MAX`.
   */
  lemma {:induction false} GetU16FromSpec(acc: uint16, v: seq<ByteChar>)
    ensures var k := DigitRun(v); var r := GetU16From(acc, v);
      && (r.0.Some? <==> k < |v| && Fold(acc, v[..k]) <= U16_MAX)
      && (r.0.Some? ==> r.0.value == (Fold(acc, v[..k]), v[k]) && r.1 == v[k + 1..])
    decreases |v|
  {
    if v != [] && IsDigit(v[0]) {
      var d := DigitValue(v[0]);
      var k := DigitRun(v);
      assert k == 1 + DigitRun(v[1..]);
      assert v[..k][0] == v[0] && v[..k][1..] == v[1..][..k - 1];
      assert Fold(acc, v[..k]) == Fold(acc * 10 + d, v[1..][..k - 1]);
      match AccumulateU16(acc, d)
      case None =>
        FoldGrows(acc * 10 + d, v[1..][..k - 1]);
      case Some(n) =>
        GetU16FromSpec(n, v[1..]);
        if k < |v| {
          assert v[1..][k - 1 + 1..] == v[k + 1..];
        }
    } else if v != [] {
      assert DigitRun(v) == 0 && v[..0] == [];
      assert Fold(acc, []) == acc;
    }
  }

  /** A numeral followed by a non-digit parses to its value, consuming exactly both. */
  lemma GetU16Decodes(ds: seq<ByteChar>, t: ByteChar, tail: seq<ByteChar>)
    requires AllDigits(ds) && Value(ds) <= U16_MAX && !IsDigit(t)
    ensures GetU16(ds + [t] + tail) == (Some((Value(ds), t)), tail)
  {
    var v := ds + [t] + tail;
    DigitRunOfNumeral(ds, t, tail);
    GetU16FromSpec(0, v);
    assert v[..|ds|] == ds;
    assert v[|ds| + 1..] == tail;
  }

  /** A numeral of a value above `u16::MAX` makes `get_u16` fail, however it ends. */
  lemma GetU16Overflow(ds: seq<ByteChar>, tail: seq<ByteChar>)
    requires AllDigits(ds) && Value(ds) > U16_MAX
    ensures GetU16(ds + tail).0 == None
  {
    var v := ds + tail;
    var k := DigitRun(v);
    GetU16FromSpec(0, v);
    if k < |v| {
      assert k >= |ds|;
      assert v[..k] == ds + v[|ds|..k];
      FoldAppend(0, ds, v[|ds|..k]);
      FoldGrows(Value(ds), v[|ds|..k]);
    }
  }

  /** What `get_u16` returns is the value of a numeral the input began with. */
  lemma GetU16Sound(v: seq<ByteChar>)
    ensures var r := GetU16(v);
      r.0.Some? ==> exists ds :: IsNumeral(ds, r.0.value.0) && !IsDigit(r.0.value.1)
                                 && v == ds + [r.0.value.1] + r.1
  {
    var k := DigitRun(v);
    GetU16FromSpec(0, v);
    if GetU16(v).0.Some? {
      assert v == v[..k] + [v[k]] + v[k + 1..];
    }
  }

  // ---------------------------------------------------------------------------
  // Coordinates
  // ---------------------------------------------------------------------------

  /** `; dx ; dy t` with in-range values parses to `((x, y), t)` and leaves exactly what follows. */
  lemma CoordinatesDecode(dx: seq<ByteChar>, dy: seq<ByteChar>, t: ByteChar, tail: seq<ByteChar>)
    requires AllDigits(dx) && Value(dx) <= U16_MAX
    requires AllDigits(dy) && Value(dy) <= U16_MAX
    requires !IsDigit(t)
    ensures GetCoordinates(";" + dx + ";" + dy + [t] + tail) == (Some(((Value(dx), Value(dy)), t)), tail)
  {
    var v := ";" + dx + ";" + dy + [t] + tail;
    assert v[1..] == dx + [';'] + (dy + [t] + tail);
    GetU16Decodes(dx, ';', dy + [t] + tail);
    GetU16Decodes(dy, t, tail);
  }

  /** What `get_coordinates` returns was spelled out at the front of the input. */
  lemma CoordinatesSound(v: seq<ByteChar>)
    ensures var r := GetCoordinates(v);
      r.0.Some? ==> exists dx, dy :: IsNumeral(dx, r.0.value.0.0) && IsNumeral(dy, r.0.value.0.1)
                     && !IsDigit(r.0.value.1)
                     && v == ";" + dx + ";" + dy + [r.0.value.1] + r.1
  {
    var r := GetCoordinates(v);
    if r.0.Some? {
      var rest := v[1..];
      GetU16Sound(rest);
      var (xr, rest2) := GetU16(rest);
      var dx :| IsNumeral(dx, xr.value.0) && rest == dx + [';'] + rest2;
      GetU16Sound(rest2);
      var (yr, rest3) := GetU16(rest2);
      var dy :| IsNumeral(dy, yr.value.0) && !IsDigit(yr.value.1) && rest2 == dy + [yr.value.1] + rest3;
      assert v == ";" + dx + ";" + dy + [r.0.value.1] + r.1;
    }
  }

  /** Without a leading `';'`, or with `x` ended by anything but `';'`, there are no coordinates. */
  lemma CoordinatesShape(v: seq<ByteChar>, dx: seq<ByteChar>, t: ByteChar)
    requires v == [] || v[0] != ';'
             || (AllDigits(dx) && !IsDigit(t) && t != ';' && |dx| + 2 <= |v| && v[..|dx| + 2] == ";" + dx + [t])
    ensures GetCoordinates(v).0 == None
  {
    if v != [] && v[0] == ';' {
      var tail := v[|dx| + 2..];
      assert v == ";" + dx + [t] + tail;
      assert v[1..] == dx + [t] + tail;
      if Value(dx) <= U16_MAX {
        GetU16Decodes(dx, t, tail);
      } else {
        GetU16Overflow(dx, [t] + tail);
        assert dx + [t] + tail == dx + ([t] + tail);
      }
    }
  }

  // ---------------------------------------------------------------------------
  // Reports
  // ---------------------------------------------------------------------------

  /** The selectors a report can start with. */
  const Selectors: seq<seq<ByteChar>> := ["0", "1", "2", "32", "33", "34", "35", "64", "65"]

  /** What the three handlers make of a selector `s` and the outcome `c` of `get_coordinates` after it. */
  function Dispatch(s: seq<ByteChar>, c: (Option<(Coord, ByteChar)>, seq<ByteChar>)): (TuiEvents, seq<ByteChar>)
    requires s in Selectors
  {
    var (coords, rest) := c;
    if coords.None? then (Error, rest)
    else
      var (at, t) := coords.value;
      if s == "0" && t == 'M' then (LeftClick(at), rest)
      else if s == "1" && t == 'M' then (MiddleClick(at), rest)
      else if s == "2" && t == 'M' then (RightClick(at), rest)
      else if |s| == 1 && t == 'm' then (Ignore, rest)
      else if s == "32" && t == 'M' then (LeftDrag(at), rest)
      else if s == "33" && t == 'M' then (MiddleDrag(at), rest)
      else if s == "34" && t == 'M' then (RightDrag(at), rest)
      else if s == "35" && t == 'm' then (MouseMove(at), rest)
      else if s == "64" && t == 'M' then (ScrollUp(at), rest)
      else if s == "65" && t == 'M' then (ScrollDown(at), rest)
      else (Error, rest)
  }

  /** A one-byte selector leaves `get_coordinates` the input after it. */
  lemma ButtonSelector(b: ByteChar, w: seq<ByteChar>)
    requires b in "012"
    ensures HandleMouseEvents([b] + w) == Dispatch([b], GetCoordinates(w))
  {
    ReadFront(b, w);
  }

  /** A motion selector `3x` leaves `get_coordinates` the input after it. */
  lemma MoveSelector(b: ByteChar, w: seq<ByteChar>)
    requires b in "2345"
    ensures HandleMouseEvents(['3'] + ([b] + w)) == Dispatch(['3', b], GetCoordinates(w))
  {
    ReadFront('3', [b] + w);
    ReadFront(b, w);
  }

  /** A scroll selector `6x` leaves `get_coordinates` the input after it. */
  lemma ScrollSelector(b: ByteChar, w: seq<ByteChar>)
    requires b in "45"
    ensures HandleMouseEvents(['6'] + ([b] + w)) == Dispatch(['6', b], GetCoordinates(w))
  {
    ReadFront('6', [b] + w);
    ReadFront(b, w);
  }

  /** Reading a one- or two-byte selector `s` leaves `get_coordinates` the input after it. */
  lemma SelectorThenCoordinates(s: seq<ByteChar>, w: seq<ByteChar>)
    requires s in Selectors
    ensures HandleMouseEvents(s + w) == Dispatch(s, GetCoordinates(w))
  {
    if |s| == 1 {
      ButtonSelector(s[0], w);
      assert s + w == [s[0]] + w;
    } else {
      assert s + w == [s[0]] + ([s[1]] + w) && s == [s[0], s[1]];
      if s[0] == '3' {
        MoveSelector(s[1], w);
      } else {
        ScrollSelector(s[1], w);
      }
    }
  }

  /** Regrouping a report around its selector. */
  lemma AfterSelector(s: seq<ByteChar>, dx: seq<ByteChar>, dy: seq<ByteChar>, t: ByteChar, tail: seq<ByteChar>)
    ensures s + ";" + dx + ";" + dy + [t] + tail == s + (";" + dx + ";" + dy + [t] + tail)
  {
  }

  /** The dispatch table takes a mouse event's selector and final byte back to the event. */
  lemma DispatchReport(e: TuiEvents, rest: seq<ByteChar>)
    requires e.IsMouse()
    ensures Selector(e) in Selectors && Dispatch(Selector(e), (Some((e.at, Final(e))), rest)) == (e, rest)
  {
  }

  /** The dispatch table yields a mouse event only for that event's own selector and final byte. */
  lemma DispatchSound(s: seq<ByteChar>, c: (Option<(Coord, ByteChar)>, seq<ByteChar>))
    requires s in Selectors
    ensures var r := Dispatch(s, c);
      && (r.0.IsMouse() ==> s == Selector(r.0) && c == (Some((r.0.at, Final(r.0))), r.1))
      && (r.0 == Ignore ==> |s| == 1 && c.0.Some? && c.0.value.1 == 'm' && c.1 == r.1)
  {
    var r := Dispatch(s, c);
    if r.0.IsMouse() {
      var (at, t) := c.0.value;
      if s == "0" {} else if s == "1" {} else if s == "2" {} else if s == "32" {}
      else if s == "33" {} else if s == "34" {} else if s == "35" {} else if s == "64" {}
    }
  }

  /** A report of `e` whose final byte is neither `e`'s nor a release makes the dispatch table fail. */
  lemma DispatchWrongFinal(e: TuiEvents, t: ByteChar, rest: seq<ByteChar>)
    requires e.IsMouse() && t != Final(e)
    requires (e.LeftClick? || e.MiddleClick? || e.RightClick?) ==> t != 'm'
    ensures Selector(e) in Selectors && Dispatch(Selector(e), (Some((e.at, t)), rest)).0 == Error
  {
  }

  /** Every mouse report decodes to its event and consumes exactly the report. */
  lemma MouseReportDecodes(e: TuiEvents, dx: seq<ByteChar>, dy: seq<ByteChar>, tail: seq<ByteChar>)
    requires e.IsMouse() && IsNumeral(dx, e.at.0) && IsNumeral(dy, e.at.1)
    ensures HandleMouseEvents(Report(e, dx, dy) + tail) == (e, tail)
  {
    var body := ";" + dx + ";" + dy + [Final(e)] + tail;
    CoordinatesDecode(dx, dy, Final(e), tail);
    DispatchReport(e, tail);
    SelectorThenCoordinates(Selector(e), body);
    ReportConcat(e, dx, dy, tail);
  }

  /** A button release (`'m'` after selector 0, 1 or 2) is recognised and suppressed. */
  lemma ButtonReleaseIgnored(b: ByteChar, dx: seq<ByteChar>, dy: seq<ByteChar>, tail: seq<ByteChar>)
    requires b in "012"
    requires AllDigits(dx) && Value(dx) <= U16_MAX
    requires AllDigits(dy) && Value(dy) <= U16_MAX
    ensures HandleMouseEvents([b] + ";" + dx + ";" + dy + "m" + tail) == (Ignore, tail)
  {
    var body := ";" + dx + ";" + dy + ['m'] + tail;
    CoordinatesDecode(dx, dy, 'm', tail);
    ButtonSelector(b, body);
    AfterSelector([b], dx, dy, 'm', tail);
  }

  /** A motion or scroll handler that does not fail read a second selector byte of its family. */
  lemma SecondSelectorRead(w: seq<ByteChar>)
    ensures HandleMouseMoveEvent(w).0 != Error ==> w != [] && w[0] in "2345"
    ensures HandleScrollEvent(w).0 != Error ==> w != [] && w[0] in "45"
  {
  }

  /** The mouse decoder does not fail only after a known first selector byte. */
  lemma FirstSelectorRead(v: seq<ByteChar>)
    ensures HandleMouseEvents(v).0 != Error ==>
      && v != []
      && (v[0] in "012"
          || (v[0] == '3' && HandleMouseMoveEvent(v[1..]).0 != Error)
          || (v[0] == '6' && HandleScrollEvent(v[1..]).0 != Error))
  {
  }

  /** Anything but `Error` started with one of the selectors. */
  lemma SelectorOfResult(v: seq<ByteChar>)
    ensures var r := HandleMouseEvents(v);
      r.0 != Error ==> exists s :: s in Selectors && |s| <= |v| && v[..|s|] == s
  {
    if HandleMouseEvents(v).0 != Error {
      FirstSelectorRead(v);
      SecondSelectorRead(v[1..]);
      if v[0] in "012" {
        assert v[..1] == [v[0]] && [v[0]] in Selectors;
      } else {
        assert v[..2] == [v[0], v[1]] && [v[0], v[1]] in Selectors;
      }
    }
  }

  /** A decoded mouse event started with its selector, followed by coordinates and its final byte. */
  lemma HandleMouseEventsSound(v: seq<ByteChar>)
    ensures var r := HandleMouseEvents(v);
      r.0.IsMouse() ==> && |Selector(r.0)| <= |v| && v[..|Selector(r.0)|] == Selector(r.0)
                        && GetCoordinates(v[|Selector(r.0)|..]) == (Some((r.0.at, Final(r.0))), r.1)
  {
    var r := HandleMouseEvents(v);
    if r.0.IsMouse() {
      SelectorOfResult(v);
      var s :| s in Selectors && |s| <= |v| && v[..|s|] == s;
      var w := v[|s|..];
      assert v == s + w;
      SelectorThenCoordinates(s, w);
      DispatchSound(s, GetCoordinates(w));
    }
  }

  lemma ReportConcat(e: TuiEvents, dx: seq<ByteChar>, dy: seq<ByteChar>, rest: seq<ByteChar>)
    requires e.IsMouse()
    ensures Selector(e) + (";" + dx + ";" + dy + [Final(e)] + rest) == Report(e, dx, dy) + rest
  {
  }

  /** A decoded mouse event was spelled out, as a report, at the front of the input. */
  lemma MouseDecodeSound(v: seq<ByteChar>)
    ensures var r := HandleMouseEvents(v);
      r.0.IsMouse() ==> exists dx, dy :: IsNumeral(dx, r.0.at.0) && IsNumeral(dy, r.0.at.1)
                          && v == Report(r.0, dx, dy) + r.1
  {
    var r := HandleMouseEvents(v);
    if r.0.IsMouse() {
      HandleMouseEventsSound(v);
      var s := Selector(r.0);
      var w := v[|s|..];
      CoordinatesSound(w);
      var dx, dy :| IsNumeral(dx, r.0.at.0) && IsNumeral(dy, r.0.at.1)
                    && w == ";" + dx + ";" + dy + [Final(r.0)] + r.1;
      assert v == s + w;
      ReportConcat(r.0, dx, dy, r.1);
    }
  }

  /** `Ignore` comes only from a button selector whose coordinates end in `'m'`. */
  lemma IgnoreFromButton(v: seq<ByteChar>)
    ensures var r := HandleMouseEvents(v);
      r.0 == Ignore ==> && v != [] && v[0] in "012"
                        && GetCoordinates(v[1..]).0.Some? && GetCoordinates(v[1..]).0.value.1 == 'm'
                        && r.1 == GetCoordinates(v[1..]).1
  {
  }

  /** `Ignore` comes only from a button release report. */
  lemma IgnoreSound(v: seq<ByteChar>)
    ensures var r := HandleMouseEvents(v);
      r.0 == Ignore ==> exists b, dx, dy :: b in "012" && AllDigits(dx) && AllDigits(dy)
                          && v == [b] + ";" + dx + ";" + dy + "m" + r.1
  {
    var r := HandleMouseEvents(v);
    if r.0 == Ignore {
      IgnoreFromButton(v);
      var w := v[1..];
      CoordinatesSound(w);
      var c := GetCoordinates(w).0.value;
      var dx, dy :| IsNumeral(dx, c.0.0) && IsNumeral(dy, c.0.1)
                    && w == ";" + dx + ";" + dy + ['m'] + r.1;
      assert v == [v[0]] + w;
      AfterSelector([v[0]], dx, dy, 'm', r.1);
    }
  }

  /** A first selector byte outside `0 1 2 3 6`, or none at all, is an error. */
  lemma UnknownSelectorIsError(v: seq<ByteChar>)
    requires v == [] || v[0] !in "01236"
    ensures HandleMouseEvents(v).0 == Error
  {
  }

  /** After a first selector `'3'` or `'6'`, a second selector byte outside the family is an error. */
  lemma SecondSelectorIsError(v: seq<ByteChar>)
    requires 1 <= |v| && (v[0] == '3' || v[0] == '6')
    requires |v| == 1 || (v[0] == '3' && v[1] !in "2345") || (v[0] == '6' && v[1] !in "45")
    ensures HandleMouseEvents(v).0 == Error
  {
  }

  /**
    A well-formed report of `e` with the wrong final byte is an error; for
    the three button presses `'m'` is not wrong but a release.
   */
  lemma WrongFinalIsError(e: TuiEvents, dx: seq<ByteChar>, dy: seq<ByteChar>, t: ByteChar, tail: seq<ByteChar>)
    requires e.IsMouse() && IsNumeral(dx, e.at.0) && IsNumeral(dy, e.at.1)
    requires !IsDigit(t) && t != Final(e)
    requires (e.LeftClick? || e.MiddleClick? || e.RightClick?) ==> t != 'm'
    ensures HandleMouseEvents(Selector(e) + ";" + dx + ";" + dy + [t] + tail).0 == Error
  {
    var body := ";" + dx + ";" + dy + [t] + tail;
    CoordinatesDecode(dx, dy, t, tail);
    DispatchWrongFinal(e, t, tail);
    SelectorThenCoordinates(Selector(e), body);
    AfterSelector(Selector(e), dx, dy, t, tail);
  }

  /** Coordinates that do not parse make every selector an error. */
  lemma BadCoordinatesIsError(v: seq<ByteChar>, s: seq<ByteChar>)
    requires s in Selectors
    requires |s| <= |v| && v[..|s|] == s
    requires GetCoordinates(v[|s|..]).0 == None
    ensures HandleMouseEvents(v).0 == Error
  {
    assert v == s + v[|s|..];
    SelectorThenCoordinates(s, v[|s|..]);
  }

  // ---------------------------------------------------------------------------
  // Only the front of the input is read
  // ---------------------------------------------------------------------------

  lemma DropOneSuffix(v: seq<ByteChar>)
    requires v != []
    ensures IsSuffix(v[1..], v)
  {
  }

  /** `get_u16` reads from the front of the input and leaves the rest as it was. */
  lemma {:induction false} GetU16FromSuffix(acc: uint16, v: seq<ByteChar>)
    ensures IsSuffix(GetU16From(acc, v).1, v)
    decreases |v|
  {
    if v != [] {
      DropOneSuffix(v);
      if IsDigit(v[0]) {
        var n := AccumulateU16(acc, DigitValue(v[0]));
        if n.Some? {
          GetU16FromSuffix(n.value, v[1..]);
          SuffixTransitive(v, v[1..], GetU16From(n.value, v[1..]).1);
        }
      }
    }
  }

  /** `get_coordinates` reads from the front of the input and leaves the rest as it was. */
  lemma GetCoordinatesSuffix(v: seq<ByteChar>)
    ensures IsSuffix(GetCoordinates(v).1, v)
  {
    if v != [] {
      var rest := v[1..];
      DropOneSuffix(v);
      GetU16FromSuffix(0, rest);
      var rest2 := GetU16(rest).1;
      SuffixTransitive(v, rest, rest2);
      GetU16FromSuffix(0, rest2);
      SuffixTransitive(v, rest2, GetU16(rest2).1);
    }
  }

  /** After a selector byte, `get_coordinates` or a failed second selector leaves a suffix. */
  lemma SecondSelectorSuffix(v: seq<ByteChar>)
    ensures IsSuffix(HandleMouseMoveEvent(v).1, v) && IsSuffix(HandleScrollEvent(v).1, v)
  {
    if v != [] {
      DropOneSuffix(v);
      GetCoordinatesSuffix(v[1..]);
      SuffixTransitive(v, v[1..], GetCoordinates(v[1..]).1);
    }
  }

  /** Where the input left by the mouse decoder comes from, by first selector byte. */
  lemma HandleMouseEventsRest(v: seq<ByteChar>)
    requires v != []
    ensures var r := HandleMouseEvents(v).1; var w := v[1..];
      || r == w || r == GetCoordinates(w).1
      || r == HandleMouseMoveEvent(w).1 || r == HandleScrollEvent(w).1
  {
  }

  /** The mouse decoder reads from the front of the input and leaves the rest as it was. */
  lemma HandleMouseEventsSuffix(v: seq<ByteChar>)
    ensures IsSuffix(HandleMouseEvents(v).1, v)
  {
    if v != [] {
      var w := v[1..];
      HandleMouseEventsRest(v);
      DropOneSuffix(v);
      GetCoordinatesSuffix(w);
      SuffixTransitive(v, w, GetCoordinates(w).1);
      SecondSelectorSuffix(w);
      SuffixTransitive(v, w, HandleMouseMoveEvent(w).1);
      SuffixTransitive(v, w, HandleScrollEvent(w).1);
    }
  }

  // ---------------------------------------------------------------------------
  // The defect in `get_u16` as written
  // ---------------------------------------------------------------------------

  /** One digit step of `get_u16` as written, when its subtraction guard lets the digit through. */
  lemma AsWrittenStep(acc: uint16, c: ByteChar, w: seq<ByteChar>)
    requires IsDigit(c) && DigitValue(c) <= U16_MAX - (acc * 10) % 0x1_0000
    ensures GetU16AsWrittenFrom(acc, [c] + w) == GetU16AsWrittenFrom((acc * 10) % 0x1_0000 + DigitValue(c), w)
  {
    ReadFront(c, w);
  }

  /** One digit step of the corrected `get_u16`. */
  lemma CorrectedStep(acc: uint16, c: ByteChar, w: seq<ByteChar>)
    requires IsDigit(c)
    ensures GetU16From(acc, [c] + w) ==
      match AccumulateU16(acc, DigitValue(c))
      case None => (None, w)
      case Some(n) => GetU16From(n, w)
  {
    ReadFront(c, w);
  }

  lemma AsWrittenLastNines(v: seq<ByteChar>)
    requires v == "99;"
    ensures GetU16AsWrittenFrom(999, v).0 == Some((34463, ';'))
  {
    var v4, v5 := v[1..], v[2..];
    assert v == ['9'] + v4 && v4 == ['9'] + v5 && v5 == [';'] + [];
    AsWrittenStep(999, '9', v4);
    AsWrittenStep(9999, '9', v5);
    ReadFront(';', []);
  }

  lemma AsWrittenNines(v: seq<ByteChar>)
    requires v == "99999;"
    ensures GetU16AsWrittenFrom(0, v).0 == Some((34463, ';'))
  {
    var v1, v2, v3 := v[1..], v[2..], v[3..];
    assert v == ['9'] + v1 && v1 == ['9'] + v2 && v2 == ['9'] + v3;
    AsWrittenStep(0, '9', v1);
    AsWrittenStep(9, '9', v2);
    AsWrittenStep(99, '9', v3);
    AsWrittenLastNines(v3);
  }

  lemma CorrectedNines(v: seq<ByteChar>)
    requires v == "99999;"
    ensures GetU16(v).0 == None
  {
    var v1, v2, v3, v4, v5 := v[1..], v[2..], v[3..], v[4..], v[5..];
    assert v == ['9'] + v1 && v1 == ['9'] + v2 && v2 == ['9'] + v3 && v3 == ['9'] + v4 && v4 == ['9'] + v5;
    CorrectedStep(0, '9', v1);
    CorrectedStep(9, '9', v2);
    CorrectedStep(99, '9', v3);
    CorrectedStep(999, '9', v4);
    CorrectedStep(9999, '9', v5);
  }

  /** As written, `99999` followed by `;` wraps to 34463 (99990 mod 65536, plus 9) instead of failing. */
  lemma GetU16AsWrittenWraps(v: seq<ByteChar>)
    requires v == "99999;"
    ensures GetU16AsWrittenFrom(0, v).0 == Some((34463, ';'))
    ensures GetU16(v).0 == None
  {
    AsWrittenNines(v);
    CorrectedNines(v);
  }

  /** On values that fit, the code as written and the corrected parser agree. */
  lemma {:induction false} GetU16AsWrittenAgrees(acc: uint16, v: seq<ByteChar>)
    requires GetU16From(acc, v).0.Some?
    ensures GetU16AsWrittenFrom(acc, v) == GetU16From(acc, v)
    decreases |v|
  {
    if v != [] && IsDigit(v[0]) {
      var n := AccumulateU16(acc, DigitValue(v[0]));
      GetU16AsWrittenAgrees(n.value, v[1..]);
    }
  }

  /**
    xterm ends every SGR report but a button release in `M`, motion without
    a button (`Cb` = 35) included; the decoder wants `m` there, so the
    motion report xterm sends is an `Error`.
   */
  lemma XtermMotionIsError(dx: seq<ByteChar>, dy: seq<ByteChar>, tail: seq<ByteChar>)
    requires AllDigits(dx) && Value(dx) <= U16_MAX && AllDigits(dy) && Value(dy) <= U16_MAX
    ensures HandleMouseEvents("35;" + dx + ";" + dy + "M" + tail).0 == Error
  {
    var e := MouseMove((Value(dx), Value(dy)));
    WrongFinalIsError(e, dx, dy, 'M', tail);
    assert Selector(e) + ";" + dx + ";" + dy + ['M'] + tail == "35;" + dx + ";" + dy + "M" + tail;
  }
}
