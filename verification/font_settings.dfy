/**
  The font settings record of src/font_settings/mod.rs and its default.
  The record in src/font_settings/mod.rs declares no italic field, but the
  terminal and the string builder read and write `is_italics`; it is
  included here with the same default as the other attributes.
 */
module Fonts {
  import opened TuiEnums

  datatype FontSettings = FontSettings(
    fontColor: Color,
    backgroundColor: Color,
    isBold: ThreeBool,
    isUnderlined: ThreeBool,
    isItalics: ThreeBool,
    isInverted: ThreeBool,
    isBlinking: ThreeBool,
    isDecLine: bool)

  /** `FontSettings::default()`. */
  function DefaultSettings(): (fs: FontSettings)
    ensures fs.fontColor == Color.Default && fs.backgroundColor == Color.Default
    ensures fs.isBold == ThreeBool.Default && fs.isUnderlined == ThreeBool.Default
    ensures fs.isItalics == ThreeBool.Default
    ensures fs.isInverted == ThreeBool.Default && fs.isBlinking == ThreeBool.Default
    ensures !fs.isDecLine
  {
    FontSettings(Color.Default, Color.Default, ThreeBool.Default, ThreeBool.Default,
                 ThreeBool.Default, ThreeBool.Default, ThreeBool.Default, false)
  }
}
