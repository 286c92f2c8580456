/**
  The graphic-rendition codes the terminal writes (src/tui_terminal.rs:57-185,
  280-306): one SGR parameter per colour and attribute, a `Default`
  argument standing for the session's own setting, and the whole
  `ESC [ fg ; bg ; bold ; underline ; italic ; inverse ; blink m` sequence.
 */
module TerminalCodes {
  import opened Wrappers
  import opened Decimal
  import opened InputSource
  import opened TuiEnums
  import opened Fonts
  import opened Sgr

  // ---------------------------------------------------------------------------
  // Default fallback
  // ---------------------------------------------------------------------------

  /** A `Default` colour argument stands for the session's colour. */
  function ResolveColor(c: Color, ambient: Color): Color {
    if c == Color.Default then ambient else c
  }

  /** A `Default` attribute argument stands for the session's attribute. */
  function ResolveBool(b: ThreeBool, ambient: ThreeBool): ThreeBool {
    if b == ThreeBool.Default then ambient else b
  }

  // ---------------------------------------------------------------------------
  // Colour codes
  // ---------------------------------------------------------------------------

  /** `get_font_color_code`, with the session settings `amb`. */
  function FontColorCode(amb: FontSettings, color: Color): string {
    match ResolveColor(color, amb.fontColor)
    case White => "37"
    case BrightWhite => "97"
    case Black => "30"
    case BrightBlack => "90"
    case Red => "31"
    case BrightRed => "91"
    case Green => "32"
    case BrightGreen => "92"
    case Blue => "34"
    case BrightBlue => "94"
    case Yellow => "33"
    case BrightYellow => "93"
    case Magenta => "35"
    case BrightMagenta => "95"
    case Cyan => "36"
    case BrightCyan => "96"
    case CC256(code) => "38;5;" + ToDecimal(code)
    case RGB(r, g, b) => "38;2;" + ToDecimal(r) + ";" + ToDecimal(g) + ";" + ToDecimal(b)
    case Default => "39"
  }

  /** `get_background_color_code`, with the session settings `amb`. */
  function BackgroundColorCode(amb: FontSettings, color: Color): string {
    match ResolveColor(color, amb.backgroundColor)
    case White => "47"
    case BrightWhite => "107"
    case Black => "40"
    case BrightBlack => "100"
    case Red => "41"
    case BrightRed => "101"
    case Green => "42"
    case BrightGreen => "102"
    case Blue => "44"
    case BrightBlue => "104"
    case Yellow => "43"
    case BrightYellow => "103"
    case Magenta => "45"
    case BrightMagenta => "105"
    case Cyan => "46"
    case BrightCyan => "106"
    case CC256(code) => "48;5;" + ToDecimal(code)
    case RGB(r, g, b) => "48;2;" + ToDecimal(r) + ";" + ToDecimal(g) + ";" + ToDecimal(b)
    case Default => "49"
  }

  predicate IsNamed(c: Color) {
    !c.CC256? && !c.RGB? && !c.Default?
  }

  predicate IsBright(c: Color) {
    c.BrightWhite? || c.BrightBlack? || c.BrightRed? || c.BrightGreen?
    || c.BrightBlue? || c.BrightYellow? || c.BrightMagenta? || c.BrightCyan?
  }

  /** The bright counterpart of a base named colour. */
  function Brighten(c: Color): Color
    requires IsNamed(c) && !IsBright(c)
  {
    match c
    case White => Color.BrightWhite
    case Black => Color.BrightBlack
    case Red => Color.BrightRed
    case Green => Color.BrightGreen
    case Blue => Color.BrightBlue
    case Yellow => Color.BrightYellow
    case Magenta => Color.BrightMagenta
    case Cyan => Color.BrightCyan
  }

  /**
    The SGR parameters that select colour `c` as foreground (`base` 30) or
    background (`base` 40): the standard colours at `base + 0..7`, the
    bright ones 60 higher, the extended forms after `base + 8`, and the
    terminal default at `base + 9`.
   */
  function ColorParams(c: Color, base: nat): (ps: seq<nat>)
    ensures |ps| >= 1
  {
    match c
    case Black => [base]
    case Red => [base + 1]
    case Green => [base + 2]
    case Yellow => [base + 3]
    case Blue => [base + 4]
    case Magenta => [base + 5]
    case Cyan => [base + 6]
    case White => [base + 7]
    case BrightBlack => [base + 60]
    case BrightRed => [base + 61]
    case BrightGreen => [base + 62]
    case BrightYellow => [base + 63]
    case BrightBlue => [base + 64]
    case BrightMagenta => [base + 65]
    case BrightCyan => [base + 66]
    case BrightWhite => [base + 67]
    case CC256(n) => [base + 8, 5, n]
    case RGB(r, g, b) => [base + 8, 2, r, g, b]
    case Default => [base + 9]
  }

  /** The parameters of a 256-colour selection, written out. */
  lemma PaletteJoin(p: nat, n: nat)
    ensures JoinNums([p, 5, n]) == ToDecimal(p) + ";5;" + ToDecimal(n)
  {
    JoinCons(5, [n]);
    JoinCons(p, [5, n]);
    assert [p, 5, n] == [p] + [5, n] && [5, n] == [5] + [n];
    assert ToDecimal(5) == "5";
  }

  /** The parameters of a direct-colour selection, written out. */
  lemma DirectJoin(p: nat, r: nat, g: nat, b: nat)
    ensures JoinNums([p, 2, r, g, b]) == ToDecimal(p) + ";2;" + ToDecimal(r) + ";" + ToDecimal(g) + ";" + ToDecimal(b)
  {
    Join5(p, 2, r, g, b);
    assert ToDecimal(2) == "2";
    RegroupDirect(ToDecimal(p), ToDecimal(2), ToDecimal(r), ToDecimal(g), ToDecimal(b));
  }

  lemma RegroupDirect(a: string, x: string, r: string, g: string, b: string)
    requires x == "2"
    ensures a + ";" + x + ";" + r + ";" + g + ";" + b == a + ";2;" + r + ";" + g + ";" + b
  {
  }

  /** `to_string` of a two-digit number. */
  lemma TwoDigits(n: nat)
    requires 10 <= n < 100
    ensures ToDecimal(n) == [DigitChar(n / 10), DigitChar(n % 10)]
  {
  }

  /** `to_string` of a three-digit number. */
  lemma ThreeDigits(n: nat)
    requires 100 <= n < 1000
    ensures ToDecimal(n) == [DigitChar(n / 100), DigitChar(n / 10 % 10), DigitChar(n % 10)]
  {
    TwoDigits(n / 10);
  }

  /** The foreground codes of the colours selected by one parameter. */
  lemma SingleForegroundCode(c: Color)
    requires !c.CC256? && !c.RGB?
    ensures FontColorCode(DefaultSettings(), c) == ToDecimal(ColorParams(c, 30)[0])
  {
    TwoDigits(ColorParams(c, 30)[0]);
  }

  /** The background codes of the colours selected by one parameter. */
  lemma SingleBackgroundCode(c: Color)
    requires !c.CC256? && !c.RGB?
    ensures BackgroundColorCode(DefaultSettings(), c) == ToDecimal(ColorParams(c, 40)[0])
  {
    var p := ColorParams(c, 40)[0];
    if p < 100 {
      TwoDigits(p);
    } else {
      ThreeDigits(p);
    }
  }

  /** The colour codes depend on the session only through the resolved colour. */
  lemma CodesOfResolved(amb: FontSettings, color: Color)
    ensures FontColorCode(amb, color) == FontColorCode(DefaultSettings(), ResolveColor(color, amb.fontColor))
    ensures BackgroundColorCode(amb, color)
         == BackgroundColorCode(DefaultSettings(), ResolveColor(color, amb.backgroundColor))
  {
  }

  /** `38` and `48` written out. */
  lemma Introducers()
    ensures ToDecimal(38) == "38" && ToDecimal(48) == "48"
  {
    TwoDigits(38);
    TwoDigits(48);
  }

  lemma PaletteForeground(n: uint8)
    ensures FontColorCode(DefaultSettings(), CC256(n)) == JoinNums(ColorParams(CC256(n), 30))
  {
    assert ColorParams(CC256(n), 30) == [38, 5, n];
    PaletteJoin(38, n);
    Introducers();
  }

  lemma PaletteBackground(n: uint8)
    ensures BackgroundColorCode(DefaultSettings(), CC256(n)) == JoinNums(ColorParams(CC256(n), 40))
  {
    assert ColorParams(CC256(n), 40) == [48, 5, n];
    PaletteJoin(48, n);
    Introducers();
  }

  lemma DirectForeground(r: uint8, g: uint8, b: uint8)
    ensures FontColorCode(DefaultSettings(), RGB(r, g, b)) == JoinNums(ColorParams(RGB(r, g, b), 30))
  {
    assert ColorParams(RGB(r, g, b), 30) == [38, 2, r, g, b];
    DirectJoin(38, r, g, b);
    Introducers();
  }

  lemma DirectBackground(r: uint8, g: uint8, b: uint8)
    ensures BackgroundColorCode(DefaultSettings(), RGB(r, g, b)) == JoinNums(ColorParams(RGB(r, g, b), 40))
  {
    assert ColorParams(RGB(r, g, b), 40) == [48, 2, r, g, b];
    DirectJoin(48, r, g, b);
    Introducers();
  }

  lemma SingleJoin(n: nat)
    ensures JoinNums([n]) == ToDecimal(n)
  {
  }

  /** The foreground code of a colour is the decimal form of its foreground parameters. */
  lemma ForegroundParamsOf(c: Color)
    ensures FontColorCode(DefaultSettings(), c) == JoinNums(ColorParams(c, 30))
  {
    if c.CC256? {
      PaletteForeground(c.code);
    } else if c.RGB? {
      DirectForeground(c.r, c.g, c.b);
    } else {
      SingleForegroundCode(c);
      SingleJoin(ColorParams(c, 30)[0]);
      assert ColorParams(c, 30) == [ColorParams(c, 30)[0]];
    }
  }

  /** The background code of a colour is the decimal form of its background parameters. */
  lemma BackgroundParamsOf(c: Color)
    ensures BackgroundColorCode(DefaultSettings(), c) == JoinNums(ColorParams(c, 40))
  {
    if c.CC256? {
      PaletteBackground(c.code);
    } else if c.RGB? {
      DirectBackground(c.r, c.g, c.b);
    } else {
      SingleBackgroundCode(c);
      SingleJoin(ColorParams(c, 40)[0]);
      assert ColorParams(c, 40) == [ColorParams(c, 40)[0]];
    }
  }

  /** The foreground code is the decimal form of the foreground parameters of the resolved colour. */
  lemma FontColorCodeParams(amb: FontSettings, color: Color)
    ensures FontColorCode(amb, color) == JoinNums(ColorParams(ResolveColor(color, amb.fontColor), 30))
  {
    CodesOfResolved(amb, color);
    ForegroundParamsOf(ResolveColor(color, amb.fontColor));
  }

  /** The background code is the decimal form of the background parameters of the resolved colour. */
  lemma BackgroundColorCodeParams(amb: FontSettings, color: Color)
    ensures BackgroundColorCode(amb, color) == JoinNums(ColorParams(ResolveColor(color, amb.backgroundColor), 40))
  {
    CodesOfResolved(amb, color);
    BackgroundParamsOf(ResolveColor(color, amb.backgroundColor));
  }

  /** A named colour's codes are the decimal forms of its single parameters. */
  lemma NamedCodeIsParam(amb: FontSettings, c: Color)
    requires IsNamed(c)
    ensures |ColorParams(c, 30)| == 1 && |ColorParams(c, 40)| == 1
    ensures FontColorCode(amb, c) == ToDecimal(ColorParams(c, 30)[0])
    ensures BackgroundColorCode(amb, c) == ToDecimal(ColorParams(c, 40)[0])
  {
    FontColorCodeParams(amb, c);
    BackgroundColorCodeParams(amb, c);
  }

  /** The parameter arithmetic behind the colour table. */
  lemma NamedParams(c: Color)
    requires IsNamed(c)
    ensures |ColorParams(c, 30)| == 1 && |ColorParams(c, 40)| == 1
    ensures ColorParams(c, 40)[0] == ColorParams(c, 30)[0] + 10
    ensures !IsBright(c) ==> ColorParams(Brighten(c), 30)[0] == ColorParams(c, 30)[0] + 60
    ensures !IsBright(c) ==> ColorParams(Brighten(c), 40)[0] == ColorParams(c, 40)[0] + 60
  {
  }

  /**
    Each named colour's background code is its foreground code plus 10,
    and each bright colour's code is its base colour's plus 60.
   */
  lemma NamedColorCodes(amb: FontSettings, c: Color)
    requires IsNamed(c)
    ensures AllDigits(FontColorCode(amb, c)) && AllDigits(BackgroundColorCode(amb, c))
    ensures Value(BackgroundColorCode(amb, c)) == Value(FontColorCode(amb, c)) + 10
    ensures !IsBright(c) ==> Value(FontColorCode(amb, Brighten(c))) == Value(FontColorCode(amb, c)) + 60
    ensures !IsBright(c) ==> Value(BackgroundColorCode(amb, Brighten(c))) == Value(BackgroundColorCode(amb, c)) + 60
  {
    NamedParams(c);
    NamedCodeIsParam(amb, c);
    ValueOfToDecimal(ColorParams(c, 30)[0]);
    ValueOfToDecimal(ColorParams(c, 40)[0]);
    if !IsBright(c) {
      var b := Brighten(c);
      NamedParams(b);
      NamedCodeIsParam(amb, b);
      ValueOfToDecimal(ColorParams(b, 30)[0]);
      ValueOfToDecimal(ColorParams(b, 40)[0]);
    }
  }

  /**
    A `Default` colour argument renders as the session colour, and as the
    terminal default (39 or 49) when the session colour is `Default` too.
   */
  lemma DefaultColorFallsBack(amb: FontSettings)
    ensures FontColorCode(amb, Color.Default)
         == if amb.fontColor == Color.Default then "39" else FontColorCode(DefaultSettings(), amb.fontColor)
    ensures BackgroundColorCode(amb, Color.Default)
         == if amb.backgroundColor == Color.Default then "49" else BackgroundColorCode(DefaultSettings(), amb.backgroundColor)
  {
  }

  /** A parameter other than an extended-colour introducer takes effect on its own. */
  lemma ApplyStep(p: nat, ps: seq<nat>, r: Rendition, next: Rendition)
    requires p != 38 && p != 48 && ApplyOne(p, r) == Some(next)
    ensures Apply([p] + ps, r) == Apply(ps, next)
  {
    assert ([p] + ps)[1..] == ps;
  }

  /** An extended-colour selection takes its introducer and the parameters `ext` it names. */
  lemma ExtendedStep(p: nat, ext: seq<nat>, ps: seq<nat>, r: Rendition, c: Color)
    requires p == 38 || p == 48
    requires Extended(ext + ps) == Some((c, |ext|))
    ensures Apply([p] + ext + ps, r) == Apply(ps, if p == 38 then r.(fg := c) else r.(bg := c))
  {
    var all := [p] + ext + ps;
    assert all[1..] == ext + ps;
    assert all[1 + |ext|..] == ps;
  }

  /** The single foreground parameter of a colour that is not extended selects it. */
  lemma ForegroundOne(c: Color, r: Rendition)
    requires !c.CC256? && !c.RGB?
    ensures ApplyOne(ColorParams(c, 30)[0], r) == Some(r.(fg := c))
  {
  }

  /** The single background parameter of a colour that is not extended selects it. */
  lemma BackgroundOne(c: Color, r: Rendition)
    requires !c.CC256? && !c.RGB?
    ensures ApplyOne(ColorParams(c, 40)[0], r) == Some(r.(bg := c))
  {
  }

  lemma PaletteDecodes(n: uint8, rest: seq<nat>, r: Rendition)
    ensures Apply(ColorParams(CC256(n), 30) + rest, r) == Apply(rest, r.(fg := CC256(n)))
    ensures Apply(ColorParams(CC256(n), 40) + rest, r) == Apply(rest, r.(bg := CC256(n)))
  {
    assert ColorParams(CC256(n), 30) + rest == [38] + [5, n] + rest;
    assert ColorParams(CC256(n), 40) + rest == [48] + [5, n] + rest;
    ExtendedStep(38, [5, n], rest, r, CC256(n));
    ExtendedStep(48, [5, n], rest, r, CC256(n));
  }

  lemma DirectDecodes(x: uint8, y: uint8, z: uint8, rest: seq<nat>, r: Rendition)
    ensures Apply(ColorParams(RGB(x, y, z), 30) + rest, r) == Apply(rest, r.(fg := RGB(x, y, z)))
    ensures Apply(ColorParams(RGB(x, y, z), 40) + rest, r) == Apply(rest, r.(bg := RGB(x, y, z)))
  {
    assert ColorParams(RGB(x, y, z), 30) + rest == [38] + [2, x, y, z] + rest;
    assert ColorParams(RGB(x, y, z), 40) + rest == [48] + [2, x, y, z] + rest;
    ExtendedStep(38, [2, x, y, z], rest, r, RGB(x, y, z));
    ExtendedStep(48, [2, x, y, z], rest, r, RGB(x, y, z));
  }

  lemma OneParam(ps: seq<nat>, rest: seq<nat>)
    requires |ps| == 1
    ensures ps + rest == [ps[0]] + rest
  {
  }

  /** Reading the foreground parameters of `c` sets the foreground to `c` and nothing else. */
  lemma ForegroundDecodes(c: Color, rest: seq<nat>, r: Rendition)
    ensures Apply(ColorParams(c, 30) + rest, r) == Apply(rest, r.(fg := c))
  {
    if c.CC256? {
      PaletteDecodes(c.code, rest, r);
    } else if c.RGB? {
      DirectDecodes(c.r, c.g, c.b, rest, r);
    } else {
      var p := ColorParams(c, 30)[0];
      ForegroundOne(c, r);
      OneParam(ColorParams(c, 30), rest);
      ApplyStep(p, rest, r, r.(fg := c));
    }
  }

  /** Reading the background parameters of `c` sets the background to `c` and nothing else. */
  lemma BackgroundDecodes(c: Color, rest: seq<nat>, r: Rendition)
    ensures Apply(ColorParams(c, 40) + rest, r) == Apply(rest, r.(bg := c))
  {
    if c.CC256? {
      PaletteDecodes(c.code, rest, r);
    } else if c.RGB? {
      DirectDecodes(c.r, c.g, c.b, rest, r);
    } else {
      var p := ColorParams(c, 40)[0];
      BackgroundOne(c, r);
      OneParam(ColorParams(c, 40), rest);
      ApplyStep(p, rest, r, r.(bg := c));
    }
  }

  // ---------------------------------------------------------------------------
  // Attribute codes
  // ---------------------------------------------------------------------------

  /** `get_bold_code`. */
  function BoldCode(amb: FontSettings, b: ThreeBool): string {
    if ResolveBool(b, amb.isBold) == ThreeBool.True then "1" else "22"
  }

  /** `get_underlined_code`. */
  function UnderlinedCode(amb: FontSettings, b: ThreeBool): string {
    if ResolveBool(b, amb.isUnderlined) == ThreeBool.True then "4" else "24"
  }

  /** `get_italics_code`: its `Default` falls back to the session's underline setting. */
  function ItalicsCode(amb: FontSettings, b: ThreeBool): string {
    if ResolveBool(b, amb.isUnderlined) == ThreeBool.True then "3" else "23"
  }

  /** `get_inverted_code`. */
  function InvertedCode(amb: FontSettings, b: ThreeBool): string {
    if ResolveBool(b, amb.isInverted) == ThreeBool.True then "7" else "27"
  }

  /** `get_blinking_code`. */
  function BlinkingCode(amb: FontSettings, b: ThreeBool): string {
    if ResolveBool(b, amb.isBlinking) == ThreeBool.True then "5" else "25"
  }

  /** The parameter of an attribute that is on (`on`) or off (`off`). */
  function Switch(b: ThreeBool, ambient: ThreeBool, on: nat, off: nat): nat {
    if ResolveBool(b, ambient) == ThreeBool.True then on else off
  }

  /** `calc_font_settings_code` against the session settings `amb`. */
  function CalcFontSettingsCode(amb: FontSettings, fs: FontSettings): string {
    [ESC] + "[" + FontColorCode(amb, fs.fontColor)
    + ";" + BackgroundColorCode(amb, fs.backgroundColor)
    + ";" + BoldCode(amb, fs.isBold)
    + ";" + UnderlinedCode(amb, fs.isUnderlined)
    + ";" + ItalicsCode(amb, fs.isItalics)
    + ";" + InvertedCode(amb, fs.isInverted)
    + ";" + BlinkingCode(amb, fs.isBlinking)
    + "m"
  }

  /**
    The rendition the settings `fs` describe in a session with settings
    `amb`: every `Default` is replaced by the session's value, and an
    attribute is on exactly when the result is `True`. As in the code, a
    `Default` italic setting takes the session's underline setting.
   */
  function Effective(amb: FontSettings, fs: FontSettings): Rendition {
    Rendition(
      ResolveColor(fs.fontColor, amb.fontColor),
      ResolveColor(fs.backgroundColor, amb.backgroundColor),
      ResolveBool(fs.isBold, amb.isBold) == ThreeBool.True,
      ResolveBool(fs.isUnderlined, amb.isUnderlined) == ThreeBool.True,
      ResolveBool(fs.isItalics, amb.isUnderlined) == ThreeBool.True,
      ResolveBool(fs.isInverted, amb.isInverted) == ThreeBool.True,
      ResolveBool(fs.isBlinking, amb.isBlinking) == ThreeBool.True)
  }

  /** The attribute parameters, in the order the code writes them. */
  function AttributeParams(amb: FontSettings, fs: FontSettings): seq<nat> {
    [Switch(fs.isBold, amb.isBold, 1, 22),
     Switch(fs.isUnderlined, amb.isUnderlined, 4, 24),
     Switch(fs.isItalics, amb.isUnderlined, 3, 23),
     Switch(fs.isInverted, amb.isInverted, 7, 27),
     Switch(fs.isBlinking, amb.isBlinking, 5, 25)]
  }

  /** All the parameters of the code, in order. */
  function SettingsParams(amb: FontSettings, fs: FontSettings): seq<nat> {
    ColorParams(ResolveColor(fs.fontColor, amb.fontColor), 30)
    + ColorParams(ResolveColor(fs.backgroundColor, amb.backgroundColor), 40)
    + AttributeParams(amb, fs)
  }

  /** Each attribute code is the decimal form of its parameter. */
  lemma AttributeCodesAreDecimal(amb: FontSettings, fs: FontSettings)
    ensures BoldCode(amb, fs.isBold) == ToDecimal(Switch(fs.isBold, amb.isBold, 1, 22))
    ensures UnderlinedCode(amb, fs.isUnderlined) == ToDecimal(Switch(fs.isUnderlined, amb.isUnderlined, 4, 24))
    ensures ItalicsCode(amb, fs.isItalics) == ToDecimal(Switch(fs.isItalics, amb.isUnderlined, 3, 23))
    ensures InvertedCode(amb, fs.isInverted) == ToDecimal(Switch(fs.isInverted, amb.isInverted, 7, 27))
    ensures BlinkingCode(amb, fs.isBlinking) == ToDecimal(Switch(fs.isBlinking, amb.isBlinking, 5, 25))
  {
    assert ToDecimal(22) == "22" && ToDecimal(24) == "24" && ToDecimal(23) == "23";
    assert ToDecimal(27) == "27" && ToDecimal(25) == "25";
  }

  /** Five parameters, written out. */
  lemma Join5(a: nat, b: nat, c: nat, d: nat, e: nat)
    ensures JoinNums([a, b, c, d, e])
         == ToDecimal(a) + ";" + ToDecimal(b) + ";" + ToDecimal(c) + ";" + ToDecimal(d) + ";" + ToDecimal(e)
  {
    var t1 := [e];
    var t2 := [d] + t1;
    var t3 := [c] + t2;
    var t4 := [b] + t3;
    var t5 := [a] + t4;
    assert JoinNums(t1) == ToDecimal(e);
    JoinCons(d, t1);
    JoinCons(c, t2);
    JoinCons(b, t3);
    JoinCons(a, t4);
    assert t5 == [a, b, c, d, e];
    Regroup5(ToDecimal(a), ToDecimal(b), ToDecimal(c), ToDecimal(d), ToDecimal(e));
  }

  lemma Regroup5(a: string, b: string, c: string, d: string, e: string)
    ensures a + ";" + (b + ";" + (c + ";" + (d + ";" + e))) == a + ";" + b + ";" + c + ";" + d + ";" + e
  {
  }

  lemma AttributeCodesParams(amb: FontSettings, fs: FontSettings)
    ensures JoinNums(AttributeParams(amb, fs))
         == BoldCode(amb, fs.isBold) + ";" + UnderlinedCode(amb, fs.isUnderlined)
            + ";" + ItalicsCode(amb, fs.isItalics) + ";" + InvertedCode(amb, fs.isInverted)
            + ";" + BlinkingCode(amb, fs.isBlinking)
  {
    var ps := AttributeParams(amb, fs);
    AttributeCodesAreDecimal(amb, fs);
    Join5(ps[0], ps[1], ps[2], ps[3], ps[4]);
  }

  /** Regrouping the pieces of the code around the three parameter groups. */
  lemma CodeLayout(f: string, b: string, x1: string, x2: string, x3: string, x4: string, x5: string)
    ensures [ESC] + "[" + f + ";" + b + ";" + x1 + ";" + x2 + ";" + x3 + ";" + x4 + ";" + x5 + "m"
         == [ESC] + "[" + ((f + ";" + b) + ";" + (x1 + ";" + x2 + ";" + x3 + ";" + x4 + ";" + x5)) + "m"
  {
  }

  /** The code is CSI, the decimal parameters `;`-separated, and the final byte `m`. */
  lemma CodeIsParams(amb: FontSettings, fs: FontSettings)
    ensures CalcFontSettingsCode(amb, fs) == [ESC] + "[" + JoinNums(SettingsParams(amb, fs)) + "m"
  {
    var f := ColorParams(ResolveColor(fs.fontColor, amb.fontColor), 30);
    var b := ColorParams(ResolveColor(fs.backgroundColor, amb.backgroundColor), 40);
    var a := AttributeParams(amb, fs);
    FontColorCodeParams(amb, fs.fontColor);
    BackgroundColorCodeParams(amb, fs.backgroundColor);
    AttributeCodesParams(amb, fs);
    JoinAppend(f + b, a);
    JoinAppend(f, b);
    CodeLayout(FontColorCode(amb, fs.fontColor), BackgroundColorCode(amb, fs.backgroundColor),
               BoldCode(amb, fs.isBold), UnderlinedCode(amb, fs.isUnderlined), ItalicsCode(amb, fs.isItalics),
               InvertedCode(amb, fs.isInverted), BlinkingCode(amb, fs.isBlinking));
  }

  /** Each attribute parameter switches its own attribute on or off. */
  lemma SwitchesApply(b: ThreeBool, ambient: ThreeBool, r: Rendition)
    ensures var on := ResolveBool(b, ambient) == ThreeBool.True;
      && ApplyOne(Switch(b, ambient, 1, 22), r) == Some(r.(bold := on))
      && ApplyOne(Switch(b, ambient, 4, 24), r) == Some(r.(underline := on))
      && ApplyOne(Switch(b, ambient, 3, 23), r) == Some(r.(italic := on))
      && ApplyOne(Switch(b, ambient, 7, 27), r) == Some(r.(inverse := on))
      && ApplyOne(Switch(b, ambient, 5, 25), r) == Some(r.(blink := on))
  {
  }

  lemma AttributesDecode(amb: FontSettings, fs: FontSettings, r: Rendition)
    ensures Apply(AttributeParams(amb, fs), r)
         == Some(r.(bold := Effective(amb, fs).bold, underline := Effective(amb, fs).underline,
                    italic := Effective(amb, fs).italic, inverse := Effective(amb, fs).inverse,
                    blink := Effective(amb, fs).blink))
  {
    var ps := AttributeParams(amb, fs);
    var e := Effective(amb, fs);
    var r1 := r.(bold := e.bold);
    var r2 := r1.(underline := e.underline);
    var r3 := r2.(italic := e.italic);
    var r4 := r3.(inverse := e.inverse);
    var r5 := r4.(blink := e.blink);
    SwitchesApply(fs.isBold, amb.isBold, r);
    SwitchesApply(fs.isUnderlined, amb.isUnderlined, r1);
    SwitchesApply(fs.isItalics, amb.isUnderlined, r2);
    SwitchesApply(fs.isInverted, amb.isInverted, r3);
    SwitchesApply(fs.isBlinking, amb.isBlinking, r4);
    assert ps == [ps[0]] + ([ps[1]] + ([ps[2]] + ([ps[3]] + ([ps[4]] + []))));
    ApplyStep(ps[0], [ps[1]] + ([ps[2]] + ([ps[3]] + ([ps[4]] + []))), r, r1);
    ApplyStep(ps[1], [ps[2]] + ([ps[3]] + ([ps[4]] + [])), r1, r2);
    ApplyStep(ps[2], [ps[3]] + ([ps[4]] + []), r2, r3);
    ApplyStep(ps[3], [ps[4]] + [], r3, r4);
    ApplyStep(ps[4], [], r4, r5);
  }

  /** An SGR sequence is read by splitting what lies between CSI and `m`. */
  lemma InterpretCsi(body: string, from: Rendition)
    ensures Interpret([ESC] + "[" + body + "m", from)
         == match SplitNums(body) case None => None case Some(ps) => Apply(ps, from)
  {
    var code := [ESC] + "[" + body + "m";
    assert code[2..|code| - 1] == body;
  }

  /**
    Whatever rendition the terminal was in, after receiving the code for
    `fs` it is in exactly the rendition `fs` describes against the session
    settings: the code is a well-formed SGR sequence whose parameters set
    both colours (named, 256-colour or direct) and all five attributes.
   */
  lemma CodeSetsEffectiveRendition(amb: FontSettings, fs: FontSettings, from: Rendition)
    ensures Interpret(CalcFontSettingsCode(amb, fs), from) == Some(Effective(amb, fs))
  {
    CodeIsParams(amb, fs);
    ParamsSetEffective(amb, fs, from);
  }

  /** The parameters of the code, sent as an SGR sequence, set the rendition `fs` describes. */
  lemma ParamsSetEffective(amb: FontSettings, fs: FontSettings, from: Rendition)
    ensures Interpret([ESC] + "[" + JoinNums(SettingsParams(amb, fs)) + "m", from) == Some(Effective(amb, fs))
  {
    var ps := SettingsParams(amb, fs);
    InterpretCsi(JoinNums(ps), from);
    SplitJoin(ps);
    SettingsApply(amb, fs, from);
  }

  /** Applying the parameters of the code sets both colours and all five attributes. */
  lemma SettingsApply(amb: FontSettings, fs: FontSettings, from: Rendition)
    ensures Apply(SettingsParams(amb, fs), from) == Some(Effective(amb, fs))
  {
    var fg := ResolveColor(fs.fontColor, amb.fontColor);
    var bg := ResolveColor(fs.backgroundColor, amb.backgroundColor);
    var ps := SettingsParams(amb, fs);
    assert ps == ColorParams(fg, 30) + (ColorParams(bg, 40) + AttributeParams(amb, fs));
    ForegroundDecodes(fg, ColorParams(bg, 40) + AttributeParams(amb, fs), from);
    BackgroundDecodes(bg, AttributeParams(amb, fs), from.(fg := fg));
    AttributesDecode(amb, fs, from.(fg := fg, bg := bg));
  }

  /** With nothing set, the code resets every colour and attribute to the terminal's default. */
  lemma RenderedDefault()
    ensures CalcFontSettingsCode(DefaultSettings(), DefaultSettings())
         == [ESC] + "[39;49;22;24;23;27;25m"
    ensures forall from :: Interpret(CalcFontSettingsCode(DefaultSettings(), DefaultSettings()), from) == Some(Plain)
  {
    forall from: Rendition
      ensures Interpret(CalcFontSettingsCode(DefaultSettings(), DefaultSettings()), from) == Some(Plain)
    {
      CodeSetsEffectiveRendition(DefaultSettings(), DefaultSettings(), from);
    }
  }

  /**
    As written, a `Default` italic setting follows the session's underline
    setting, never the session's italic setting.
   */
  lemma ItalicsFollowsUnderline(amb: FontSettings, fs: FontSettings)
    requires fs.isItalics == ThreeBool.Default
    ensures ItalicsCode(amb, fs.isItalics) == if amb.isUnderlined == ThreeBool.True then "3" else "23"
    ensures Effective(amb, fs).italic == Effective(amb, fs.(isUnderlined := ThreeBool.Default)).underline
  {
  }

  // ---------------------------------------------------------------------------
  // Line drawing and clearing
  // ---------------------------------------------------------------------------

  /** `send_dec_line_code`: designate DEC Special Graphics, or ASCII, as G0. */
  function DecLineCode(isDecLine: bool): (s: string)
    ensures |s| == 3 && s[0] == ESC && s[1] == '(' && (s[2] == '0' <==> isDecLine)
  {
    if isDecLine then [ESC] + "(0" else [ESC] + "(B"
  }

  /** `clear_end_line`: erase in line from the cursor to the end (ECMA-48 section 8.3.41). */
  function ClearEndLine(): string {
    [ESC] + "[0K"
  }
}
