/**
  What a terminal does with a SELECT GRAPHIC RENDITION sequence
  (ECMA-48 section 8.3.117): the parameter string of a control sequence
  is read as `;`-separated decimal numbers and each number, left to right,
  changes the current graphic rendition. Besides the parameters of
  ECMA-48 itself this covers the bright colours 90-97 and 100-107 and the
  extended colours `38;5;n`, `38;2;r;g;b` (and `48` likewise) of
  ISO/IEC 8613-6 in their `;`-separated form.

  This is the reference against which the codes the terminal writes are
  checked; it is not part of the library.
 */
module Sgr {
  import opened Wrappers
  import opened Decimal
  import opened InputSource
  import opened TuiEnums

  /** The rendition state of the terminal; `Color.Default` is the terminal's own colour. */
  datatype Rendition = Rendition(
    fg: Color,
    bg: Color,
    bold: bool,
    underline: bool,
    italic: bool,
    inverse: bool,
    blink: bool)

  /** The state parameter 0 selects. */
  const Plain := Rendition(Color.Default, Color.Default, false, false, false, false, false)

  // ---------------------------------------------------------------------------
  // Parameter strings
  // ---------------------------------------------------------------------------

  /** A non-empty parameter list written out in decimal, `;`-separated. */
  function JoinNums(ns: seq<nat>): string
    requires |ns| >= 1
    decreases |ns|
  {
    if |ns| == 1 then ToDecimal(ns[0]) else ToDecimal(ns[0]) + ";" + JoinNums(ns[1..])
  }

  /** Reads a parameter string; every parameter must be a non-empty digit run. */
  function SplitNums(s: string): Option<seq<nat>>
    decreases |s|
  {
    var k := DigitRun(s);
    if k == 0 then None
    else if k == |s| then Some([Value(s[..k])])
    else if s[k] != ';' then None
    else match SplitNums(s[k + 1..])
      case None => None
      case Some(ns) => Some([Value(s[..k])] + ns)
  }

  /** Writing a parameter list and reading it back gives the list. */
  lemma {:induction false} SplitJoin(ns: seq<nat>)
    requires |ns| >= 1
    ensures SplitNums(JoinNums(ns)) == Some(ns)
    decreases |ns|
  {
    var d := ToDecimal(ns[0]);
    ValueOfToDecimal(ns[0]);
    if |ns| == 1 {
      DigitRunOfDigits(d);
      assert d[..|d|] == d;
      assert ns == [ns[0]];
    } else {
      var rest := JoinNums(ns[1..]);
      var s := d + ";" + rest;
      assert s == d + [';'] + rest;
      DigitRunOfNumeral(d, ';', rest);
      assert s[..|d|] == d;
      assert s[|d| + 1..] == rest;
      SplitJoin(ns[1..]);
      assert [ns[0]] + ns[1..] == ns;
    }
  }

  /** A parameter in front of a list is written in front of the list's string. */
  lemma JoinCons(n: nat, ns: seq<nat>)
    requires |ns| >= 1
    ensures JoinNums([n] + ns) == ToDecimal(n) + ";" + JoinNums(ns)
  {
    assert ([n] + ns)[1..] == ns;
  }

  /** Joining two lists is joining their strings with one `;`. */
  lemma {:induction false} JoinAppend(a: seq<nat>, b: seq<nat>)
    requires |a| >= 1 && |b| >= 1
    ensures JoinNums(a + b) == JoinNums(a) + ";" + JoinNums(b)
    decreases |a|
  {
    assert (a + b)[0] == a[0];
    if |a| > 1 {
      assert (a + b)[1..] == a[1..] + b;
      JoinAppend(a[1..], b);
    } else {
      assert (a + b)[1..] == b;
    }
  }

  // ---------------------------------------------------------------------------
  // Parameter effects
  // ---------------------------------------------------------------------------

  /** Colours 0-7 of the standard palette: black, red, green, yellow, blue, magenta, cyan, white. */
  function StandardColor(i: nat): Color
    requires i < 8
  {
    [Color.Black, Color.Red, Color.Green, Color.Yellow, Color.Blue, Color.Magenta, Color.Cyan, Color.White][i]
  }

  /** The bright counterparts of the standard palette. */
  function BrightColor(i: nat): Color
    requires i < 8
  {
    [Color.BrightBlack, Color.BrightRed, Color.BrightGreen, Color.BrightYellow,
     Color.BrightBlue, Color.BrightMagenta, Color.BrightCyan, Color.BrightWhite][i]
  }

  /** The effect of one parameter that stands alone; `None` for parameters outside this reference. */
  function ApplyOne(p: nat, r: Rendition): Option<Rendition> {
    if p == 0 then Some(Plain)
    else if p == 1 then Some(r.(bold := true))
    else if p == 3 then Some(r.(italic := true))
    else if p == 4 then Some(r.(underline := true))
    else if p == 5 then Some(r.(blink := true))
    else if p == 7 then Some(r.(inverse := true))
    else if p == 22 then Some(r.(bold := false))
    else if p == 23 then Some(r.(italic := false))
    else if p == 24 then Some(r.(underline := false))
    else if p == 25 then Some(r.(blink := false))
    else if p == 27 then Some(r.(inverse := false))
    else if 30 <= p <= 37 then Some(r.(fg := StandardColor(p - 30)))
    else if p == 39 then Some(r.(fg := Color.Default))
    else if 40 <= p <= 47 then Some(r.(bg := StandardColor(p - 40)))
    else if p == 49 then Some(r.(bg := Color.Default))
    else if 90 <= p <= 97 then Some(r.(fg := BrightColor(p - 90)))
    else if 100 <= p <= 107 then Some(r.(bg := BrightColor(p - 100)))
    else None
  }

  /**
    The colour selected by the parameters after a `38` or `48`, and how many
    of them it takes: `5;n` for the 256-colour palette, `2;r;g;b` for a
    direct colour.
   */
  function Extended(ps: seq<nat>): (r: Option<(Color, nat)>)
    ensures r.Some? ==> 1 <= r.value.1 <= |ps|
  {
    if |ps| >= 2 && ps[0] == 5 && ps[1] < 0x100 then Some((CC256(ps[1]), 2))
    else if |ps| >= 4 && ps[0] == 2 && ps[1] < 0x100 && ps[2] < 0x100 && ps[3] < 0x100 then
      Some((RGB(ps[1], ps[2], ps[3]), 4))
    else None
  }

  /** Applies the parameters left to right; `None` on a parameter this reference does not know. */
  function Apply(ps: seq<nat>, r: Rendition): Option<Rendition>
    decreases |ps|
  {
    if ps == [] then Some(r)
    else if ps[0] == 38 || ps[0] == 48 then
      match Extended(ps[1..])
      case None => None
      case Some((c, k)) =>
        Apply(ps[1 + k..], if ps[0] == 38 then r.(fg := c) else r.(bg := c))
    else
      match ApplyOne(ps[0], r)
      case None => None
      case Some(next) => Apply(ps[1..], next)
  }

  /** The rendition after the terminal receives `code` in rendition `from`, if it is an SGR sequence. */
  function Interpret(code: string, from: Rendition): Option<Rendition> {
    if |code| < 3 || code[0] != ESC || code[1] != '[' || code[|code| - 1] != 'm' then None
    else match SplitNums(code[2..|code| - 1])
      case None => None
      case Some(ps) => Apply(ps, from)
  }
}
