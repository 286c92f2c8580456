/**
  The rendering enums of src/tui_enums.rs: colours, three-valued
  attributes, and the relative cursor moves with their control sequences
  (CUU, CUD, CUF, CUB, CNL and CPL of ECMA-48 sections 8.3.22, 8.3.19,
  8.3.20, 8.3.18, 8.3.12 and 8.3.13).
 */
module TuiEnums {
  import opened Wrappers
  import opened Decimal
  import opened InputSource

  /** Rust's `u8`. */
  type uint8 = n: int | 0 <= n < 0x100

  datatype Color =
    | White | BrightWhite | Black | BrightBlack | Red | BrightRed
    | Green | BrightGreen | Blue | BrightBlue | Yellow | BrightYellow
    | Magenta | BrightMagenta | Cyan | BrightCyan
    | CC256(code: uint8)
    | RGB(r: uint8, g: uint8, b: uint8)
    | Default

  /** An attribute that is on, off, or left to the session's setting. */
  datatype ThreeBool = True | False | Default

  datatype CursorNav =
    | Up(n: uint16)
    | Down(n: uint16)
    | Forwards(n: uint16)
    | Backwards(n: uint16)
    | Next(n: uint16)
    | Previous(n: uint16)

  /** The final byte that selects the move. */
  function FinalOf(nav: CursorNav): char {
    match nav
    case Up(_) => 'A'
    case Down(_) => 'B'
    case Forwards(_) => 'C'
    case Backwards(_) => 'D'
    case Next(_) => 'E'
    case Previous(_) => 'F'
  }

  /** The move a final byte selects, with `n` as its count. */
  function NavOf(f: char, n: uint16): (r: Option<CursorNav>)
    ensures r.Some? <==> 'A' <= f <= 'F'
    ensures r.Some? ==> r.value.n == n && FinalOf(r.value) == f
  {
    if f == 'A' then Some(Up(n))
    else if f == 'B' then Some(Down(n))
    else if f == 'C' then Some(Forwards(n))
    else if f == 'D' then Some(Backwards(n))
    else if f == 'E' then Some(Next(n))
    else if f == 'F' then Some(Previous(n))
    else None
  }

  /** `CursorNav::get_code`: CSI, the count in decimal, the final byte. */
  function GetCode(nav: CursorNav): (s: string)
    ensures |s| >= 4 && s[0] == ESC && s[1] == '['
    ensures 'A' <= s[|s| - 1] <= 'F'
    ensures Canonical(s[2..|s| - 1]) && Value(s[2..|s| - 1]) == nav.n
  {
    var ds := ToDecimal(nav.n);
    ValueOfToDecimal(nav.n);
    var s := [ESC, '['] + ds + [FinalOf(nav)];
    assert s[2..|s| - 1] == ds;
    s
  }

  /**
    Reads a relative cursor move back from its control sequence: the
    count must be written as `to_string` writes a `u16`.
   */
  function ParseCursorNav(s: string): Option<CursorNav> {
    if |s| < 4 || s[0] != ESC || s[1] != '[' then None
    else
      var ds := s[2..|s| - 1];
      if !Canonical(ds) || Value(ds) > U16_MAX then None
      else NavOf(s[|s| - 1], Value(ds))
  }

  /** Every cursor move is recovered from its code. */
  lemma ParseGetCode(nav: CursorNav)
    ensures ParseCursorNav(GetCode(nav)) == Some(nav)
  {
    var s := GetCode(nav);
    assert s[|s| - 1] == FinalOf(nav);
  }

  /** The parser accepts only codes that `get_code` produces. */
  lemma GetCodeOfParse(s: string, nav: CursorNav)
    requires ParseCursorNav(s) == Some(nav)
    ensures GetCode(nav) == s
  {
    var ds := s[2..|s| - 1];
    CanonicalIsToDecimal(ds);
    assert s == [ESC, '['] + ds + [s[|s| - 1]];
  }

  /** Different moves have different codes. */
  lemma GetCodeInjective(a: CursorNav, b: CursorNav)
    requires GetCode(a) == GetCode(b)
    ensures a == b
  {
    ParseGetCode(a);
    ParseGetCode(b);
  }
}
