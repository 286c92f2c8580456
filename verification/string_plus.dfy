/**
  Styled strings (src/string_plus.rs): a text with its own font settings,
  the builder-style setters, the conversions into a styled string, and the
  DEC Special Graphics line-drawing characters.
 */
module StyledText {
  import opened Wrappers
  import opened TuiEnums
  import opened Fonts

  // ---------------------------------------------------------------------------
  // DEC Special Graphics
  // ---------------------------------------------------------------------------

  datatype DecCharSet =
    | TopLeft | HorizontalBar | TopMiddle | TopRight | VerticalBar
    | MiddleLeft | MiddleMiddle | MiddleRight
    | BottomLeft | BottomMiddle | BottomRight
    | Block | LessEqual | GreaterEqual | NotEqual
    | Other(c: char)

  /**
    `DecCharSet::get_code` as a character: the byte that selects the glyph
    while the DEC Special Graphics set is designated, or the character
    itself for `Other`.
   */
  function DecCode(d: DecCharSet): (c: char)
    ensures !d.Other? ==> 0x61 <= c as int <= 0x7C
    ensures d.Other? ==> c == d.c
  {
    match d
    case TopLeft => 0x6C as char
    case TopMiddle => 0x77 as char
    case TopRight => 0x6B as char
    case MiddleLeft => 0x74 as char
    case MiddleMiddle => 0x6E as char
    case MiddleRight => 0x75 as char
    case BottomLeft => 0x6D as char
    case BottomMiddle => 0x76 as char
    case BottomRight => 0x6A as char
    case VerticalBar => 0x78 as char
    case HorizontalBar => 0x71 as char
    case Block => 0x61 as char
    case LessEqual => 0x79 as char
    case GreaterEqual => 0x7A as char
    case NotEqual => 0x7C as char
    case Other(c) => c
  }

  /** The named glyph a code byte selects, if any: the inverse of the code table. */
  function NamedGlyph(c: char): Option<DecCharSet> {
    if c == 0x6C as char then Some(TopLeft)
    else if c == 0x77 as char then Some(TopMiddle)
    else if c == 0x6B as char then Some(TopRight)
    else if c == 0x74 as char then Some(MiddleLeft)
    else if c == 0x6E as char then Some(MiddleMiddle)
    else if c == 0x75 as char then Some(MiddleRight)
    else if c == 0x6D as char then Some(BottomLeft)
    else if c == 0x76 as char then Some(BottomMiddle)
    else if c == 0x6A as char then Some(BottomRight)
    else if c == 0x78 as char then Some(VerticalBar)
    else if c == 0x71 as char then Some(HorizontalBar)
    else if c == 0x61 as char then Some(Block)
    else if c == 0x79 as char then Some(LessEqual)
    else if c == 0x7A as char then Some(GreaterEqual)
    else if c == 0x7C as char then Some(NotEqual)
    else None
  }

  /** Each named glyph is recovered from its code byte. */
  lemma NamedGlyphOfCode(d: DecCharSet)
    requires !d.Other?
    ensures NamedGlyph(DecCode(d)) == Some(d)
  {
  }

  /** The named glyphs have pairwise distinct codes. */
  lemma DecCodeInjective(a: DecCharSet, b: DecCharSet)
    requires !a.Other? && !b.Other? && DecCode(a) == DecCode(b)
    ensures a == b
  {
    NamedGlyphOfCode(a);
    NamedGlyphOfCode(b);
  }

  // ---------------------------------------------------------------------------
  // Styled strings
  // ---------------------------------------------------------------------------

  datatype StringPlus = StringPlus(text: string, fontSettings: FontSettings)

  /** The field a builder step writes. */
  datatype Field = FontColorField | BackgroundColorField | BoldField | UnderlinedField
                 | ItalicsField | InvertedField | BlinkingField

  /** One builder step: a setter together with its argument. */
  datatype Update =
    | SetFontColorTo(color: Color)
    | SetBackgroundColorTo(color: Color)
    | SetBoldTo(value: ThreeBool)
    | SetUnderlinedTo(value: ThreeBool)
    | SetItalicsTo(value: ThreeBool)
    | SetInvertedTo(value: ThreeBool)
    | SetBlinkingTo(value: ThreeBool)
  {
    function Target(): Field {
      match this
      case SetFontColorTo(_) => FontColorField
      case SetBackgroundColorTo(_) => BackgroundColorField
      case SetBoldTo(_) => BoldField
      case SetUnderlinedTo(_) => UnderlinedField
      case SetItalicsTo(_) => ItalicsField
      case SetInvertedTo(_) => InvertedField
      case SetBlinkingTo(_) => BlinkingField
    }
  }

  /** Whether `a` and `b` agree on `f`. */
  predicate SameField(a: FontSettings, b: FontSettings, f: Field) {
    match f
    case FontColorField => a.fontColor == b.fontColor
    case BackgroundColorField => a.backgroundColor == b.backgroundColor
    case BoldField => a.isBold == b.isBold
    case UnderlinedField => a.isUnderlined == b.isUnderlined
    case ItalicsField => a.isItalics == b.isItalics
    case InvertedField => a.isInverted == b.isInverted
    case BlinkingField => a.isBlinking == b.isBlinking
  }

  /** The settings after the write `u`. */
  function Written(u: Update, fs: FontSettings): FontSettings {
    match u
    case SetFontColorTo(c) => fs.(fontColor := c)
    case SetBackgroundColorTo(c) => fs.(backgroundColor := c)
    case SetBoldTo(v) => fs.(isBold := v)
    case SetUnderlinedTo(v) => fs.(isUnderlined := v)
    case SetItalicsTo(v) => fs.(isItalics := v)
    case SetInvertedTo(v) => fs.(isInverted := v)
    case SetBlinkingTo(v) => fs.(isBlinking := v)
  }

  /**
    The `StringPlusTrait` setters: each writes one font field; the text, the
    other fields and the line-drawing flag are kept.
   */
  function Apply(sp: StringPlus, u: Update): (r: StringPlus)
    ensures r.text == sp.text && r.fontSettings.isDecLine == sp.fontSettings.isDecLine
    ensures forall f: Field :: f != u.Target() ==> SameField(r.fontSettings, sp.fontSettings, f)
  {
    StringPlus(sp.text, Written(u, sp.fontSettings))
  }

  /** What a setter reads back through the matching getter. */
  function ReadBack(sp: StringPlus, f: Field): Update {
    var fs := sp.fontSettings;
    match f
    case FontColorField => SetFontColorTo(fs.fontColor)
    case BackgroundColorField => SetBackgroundColorTo(fs.backgroundColor)
    case BoldField => SetBoldTo(fs.isBold)
    case UnderlinedField => SetUnderlinedTo(fs.isUnderlined)
    case ItalicsField => SetItalicsTo(fs.isItalics)
    case InvertedField => SetInvertedTo(fs.isInverted)
    case BlinkingField => SetBlinkingTo(fs.isBlinking)
  }

  /** The getter of the written field returns the value just set. */
  lemma GetAfterSet(sp: StringPlus, u: Update)
    ensures ReadBack(Apply(sp, u), u.Target()) == u
  {
  }

  /** Of two writes to the same field, the last one wins. */
  lemma LastWriteWins(sp: StringPlus, u: Update, w: Update)
    requires u.Target() == w.Target()
    ensures Apply(Apply(sp, u), w) == Apply(sp, w)
  {
  }

  /** Writes to different fields commute. */
  lemma SettersCommute(sp: StringPlus, u: Update, w: Update)
    requires u.Target() != w.Target()
    ensures Apply(Apply(sp, u), w) == Apply(Apply(sp, w), u)
  {
  }

  /** `set_font_settings`: replaces every setting, keeps the text. */
  function SetFontSettings(sp: StringPlus, fs: FontSettings): (r: StringPlus)
    ensures r.text == sp.text && r.fontSettings == fs
  {
    sp.(fontSettings := fs)
  }

  /** Replacing the settings wipes out every earlier builder step. */
  lemma SetFontSettingsOverrides(sp: StringPlus, u: Update, fs: FontSettings)
    ensures SetFontSettings(Apply(sp, u), fs) == SetFontSettings(sp, fs)
  {
  }

  // ---------------------------------------------------------------------------
  // Conversions
  // ---------------------------------------------------------------------------

  /** `From<&str>` and `From<String>`: the text with the default settings. */
  function FromStr(s: string): (r: StringPlus)
    ensures r.text == s && r.fontSettings == DefaultSettings()
  {
    StringPlus(s, DefaultSettings())
  }

  /** `From<char>`: the one-character text, through `to_string`. */
  function FromChar(c: char): (r: StringPlus)
    ensures r.text == [c] && r.fontSettings == DefaultSettings()
  {
    FromStr([c])
  }

  /** `From<DecCharSet>`: the glyph's code with only line drawing switched on. */
  function FromDec(d: DecCharSet): (r: StringPlus)
    ensures |r.text| == 1 && r.fontSettings.isDecLine
    ensures r.fontSettings.(isDecLine := false) == DefaultSettings()
  {
    StringPlus([DecCode(d)], DefaultSettings().(isDecLine := true))
  }

  /** A named glyph's styled string selects that glyph; `Other(c)` carries `c` itself. */
  lemma FromDecSelectsGlyph(d: DecCharSet)
    ensures !d.Other? ==> NamedGlyph(FromDec(d).text[0]) == Some(d)
    ensures d.Other? ==> FromDec(d).text == [d.c]
  {
    if !d.Other? {
      NamedGlyphOfCode(d);
    }
  }

  /** `From<&StringPlus> for String`: the stored text, unchanged by any setter. */
  function ToText(sp: StringPlus): string {
    sp.text
  }

  /** Styling never changes the text: converting in and back out gives it back. */
  lemma TextSurvivesStyling(s: string, us: seq<Update>)
    ensures ToText(ApplyAll(FromStr(s), us)) == s
  {
    ApplyAllKeepsText(FromStr(s), us);
  }

  /** A chain of builder steps, left to right. */
  function ApplyAll(sp: StringPlus, us: seq<Update>): StringPlus
    decreases |us|
  {
    if us == [] then sp else ApplyAll(Apply(sp, us[0]), us[1..])
  }

  lemma {:induction false} ApplyAllKeepsText(sp: StringPlus, us: seq<Update>)
    ensures ApplyAll(sp, us).text == sp.text
    decreases |us|
  {
    if us != [] {
      ApplyAllKeepsText(Apply(sp, us[0]), us[1..]);
    }
  }

  // ---------------------------------------------------------------------------
  // Length in bytes
  // ---------------------------------------------------------------------------

  /** Bytes in the UTF-8 encoding of one scalar value (RFC 3629, section 3). */
  function Utf8Width(c: char): nat {
    if c as int < 0x80 then 1
    else if c as int < 0x800 then 2
    else if c as int < 0x10000 then 3
    else 4
  }

  function Utf8Length(s: string): nat
    decreases |s|
  {
    if s == [] then 0 else Utf8Width(s[0]) + Utf8Length(s[1..])
  }

  /** `StringPlus::len`: the byte length of the text, as Rust's `String::len`. */
  function Len(sp: StringPlus): (n: nat)
    ensures |sp.text| <= n <= 4 * |sp.text|
  {
    Utf8LengthBounds(sp.text);
    Utf8Length(sp.text)
  }

  /** The byte length of a concatenation is the sum of the byte lengths. */
  lemma {:induction false} Utf8LengthAppend(a: string, b: string)
    ensures Utf8Length(a + b) == Utf8Length(a) + Utf8Length(b)
    decreases |a|
  {
    if a != [] {
      assert (a + b)[0] == a[0] && (a + b)[1..] == a[1..] + b;
      Utf8LengthAppend(a[1..], b);
    } else {
      assert a + b == b;
    }
  }

  /** Between one and four bytes per character; exactly one for ASCII text. */
  lemma {:induction false} LenBounds(sp: StringPlus)
    ensures |sp.text| <= Len(sp) <= 4 * |sp.text|
    ensures (forall i :: 0 <= i < |sp.text| ==> sp.text[i] as int < 0x80) ==> Len(sp) == |sp.text|
  {
    Utf8LengthBounds(sp.text);
  }

  lemma {:induction false} Utf8LengthBounds(s: string)
    ensures |s| <= Utf8Length(s) <= 4 * |s|
    ensures (forall i :: 0 <= i < |s| ==> s[i] as int < 0x80) ==> Utf8Length(s) == |s|
    decreases |s|
  {
    if s != [] {
      Utf8LengthBounds(s[1..]);
      assert forall i :: 0 <= i < |s[1..]| ==> s[1..][i] == s[i + 1];
    }
  }
}
