/**
  What `write`, `print` and `println` send (src/tui_terminal.rs:308-321,
  385-427, 434-437). The output is a sequence of chunks, each either a
  control code or text from the string, so the text can be read back with
  the codes removed. The text is split at each `\n` as Rust's
  `str::split("\n")` splits it; each line is written in the string's own
  settings, followed by the session's settings again.
 */
module TerminalOutput {
  import opened InputSource
  import opened Fonts
  import opened StyledText
  import opened TerminalCodes

  datatype Chunk = Code(code: string) | Text(text: string)

  /** The text chunks of `out`, in order: the output with every control code removed. */
  function TextOf(out: seq<Chunk>): string
    decreases |out|
  {
    if out == [] then []
    else (if out[0].Text? then out[0].text else []) + TextOf(out[1..])
  }

  lemma {:induction false} TextOfAppend(a: seq<Chunk>, b: seq<Chunk>)
    ensures TextOf(a + b) == TextOf(a) + TextOf(b)
    decreases |a|
  {
    if a == [] {
      assert a + b == b;
    } else {
      assert (a + b)[0] == a[0] && (a + b)[1..] == a[1..] + b;
      TextOfAppend(a[1..], b);
    }
  }

  lemma TextOfText(t: string)
    ensures TextOf([Text(t)]) == t
  {
    assert [Text(t)][1..] == [];
  }

  // ---------------------------------------------------------------------------
  // Lines
  // ---------------------------------------------------------------------------

  predicate NoNewline(s: string) {
    forall i :: 0 <= i < |s| ==> s[i] != '\n'
  }

  /** `str::split("\n")`: the pieces between newlines, one more than there are newlines. */
  function SplitLines(s: string): (r: seq<string>)
    ensures |r| >= 1
    ensures forall i :: 0 <= i < |r| ==> NoNewline(r[i])
    decreases |s|
  {
    if s == [] then [""]
    else
      var r := SplitLines(s[1..]);
      if s[0] == '\n' then [""] + r
      else [[s[0]] + r[0]] + r[1..]
  }

  /** The lines put back together with a newline between each two. */
  function JoinLines(ls: seq<string>): string
    requires |ls| >= 1
    decreases |ls|
  {
    if |ls| == 1 then ls[0] else ls[0] + "\n" + JoinLines(ls[1..])
  }

  /** Joining the pieces of a split gives back the string. */
  lemma {:induction false} JoinSplit(s: string)
    ensures JoinLines(SplitLines(s)) == s
    decreases |s|
  {
    if s != [] {
      var r := SplitLines(s[1..]);
      JoinSplit(s[1..]);
      if s[0] == '\n' {
        assert ([""] + r)[1..] == r;
        assert s == "\n" + s[1..];
      } else if |r| == 1 {
        assert s == [s[0]] + s[1..];
      } else {
        var r' := [[s[0]] + r[0]] + r[1..];
        assert r'[1..] == r[1..];
        assert s == [s[0]] + s[1..];
      }
    }
  }

  lemma {:induction false} SplitLine(a: string)
    requires NoNewline(a)
    ensures SplitLines(a) == [a]
    decreases |a|
  {
    if a != [] {
      SplitLine(a[1..]);
      assert [a[0]] + a[1..] == a;
    }
  }

  lemma {:induction false} SplitFirstLine(a: string, t: string)
    requires NoNewline(a)
    ensures SplitLines(a + "\n" + t) == [a] + SplitLines(t)
    decreases |a|
  {
    if a == [] {
      assert a + "\n" + t == "\n" + t;
      assert ("\n" + t)[1..] == t;
    } else {
      assert (a + "\n" + t)[1..] == a[1..] + "\n" + t;
      SplitFirstLine(a[1..], t);
      assert [a[0]] + a[1..] == a;
    }
  }

  /** Splitting lines that hold no newline, joined, gives back the lines. */
  lemma {:induction false} SplitJoin(ls: seq<string>)
    requires |ls| >= 1 && forall i :: 0 <= i < |ls| ==> NoNewline(ls[i])
    ensures SplitLines(JoinLines(ls)) == ls
    decreases |ls|
  {
    if |ls| == 1 {
      SplitLine(ls[0]);
    } else {
      SplitFirstLine(ls[0], JoinLines(ls[1..]));
      SplitJoin(ls[1..]);
      assert [ls[0]] + ls[1..] == ls;
    }
  }

  // ---------------------------------------------------------------------------
  // Sending settings
  // ---------------------------------------------------------------------------

  predicate AllCodes(out: seq<Chunk>) {
    forall i :: 0 <= i < |out| ==> out[i].Code?
  }

  lemma {:induction false} TextOfCodes(out: seq<Chunk>)
    requires AllCodes(out)
    ensures TextOf(out) == []
    decreases |out|
  {
    if out != [] {
      TextOfCodes(out[1..]);
    }
  }

  /**
    `send_font_settings_passive` (`clear` false) and `send_font_settings`
    (`clear` true): the SGR code for `fs` against the session settings
    `amb`, the character-set designation, and for the latter an erase to
    the end of the line. Only control codes, no text.
   */
  function SendFontSettings(amb: FontSettings, fs: FontSettings, clear: bool): (out: seq<Chunk>)
    ensures AllCodes(out) && TextOf(out) == []
  {
    var out := [Code(CalcFontSettingsCode(amb, fs)), Code(DecLineCode(fs.isDecLine))]
      + (if clear then [Code(ClearEndLine())] else []);
    TextOfCodes(out);
    out
  }

  // ---------------------------------------------------------------------------
  // write, print, println
  // ---------------------------------------------------------------------------

  /** One line as `write` sends it: after a newline unless it is the first (`n` is its number). */
  function LineChunks(n: nat, line: string): (out: seq<Chunk>)
    ensures TextOf(out) == Sep(n) + line
  {
    TextOfText(line);
    TextOfText("\n");
    TextOfAppend([Text("\n")], [Text(line)]);
    if n != 0 then [Text("\n")] + [Text(line)] else [Text(line)]
  }

  /**
    The loop of `write` and `print` from line number `n` on: each line
    after the restyle `style`, then the restyle `restore`.
   */
  function WriteLines(style: seq<Chunk>, restore: seq<Chunk>, lines: seq<string>, n: nat): seq<Chunk>
    decreases |lines|
  {
    if lines == [] then []
    else style + LineChunks(n, lines[0]) + restore + WriteLines(style, restore, lines[1..], n + 1)
  }

  /** `write`: restyles passively around each line. */
  function Write(amb: FontSettings, sp: StringPlus): seq<Chunk> {
    WriteLines(SendFontSettings(amb, sp.fontSettings, false), SendFontSettings(amb, amb, false),
               SplitLines(sp.text), 0)
  }

  /** `print`: as `write`, also erasing to the end of the line after each restyle. */
  function Print(amb: FontSettings, sp: StringPlus): seq<Chunk> {
    WriteLines(SendFontSettings(amb, sp.fontSettings, true), SendFontSettings(amb, amb, true),
               SplitLines(sp.text), 0)
  }

  /** The loop of `println`: each line restyled, written, restyled back, then a newline. */
  function PrintlnLines(style: seq<Chunk>, restore: seq<Chunk>, lines: seq<string>): seq<Chunk>
    decreases |lines|
  {
    if lines == [] then []
    else style + [Text(lines[0])] + restore + ([Text("\n")] + PrintlnLines(style, restore, lines[1..]))
  }

  /** `println`. */
  function Println(amb: FontSettings, sp: StringPlus): seq<Chunk> {
    PrintlnLines(SendFontSettings(amb, sp.fontSettings, true), SendFontSettings(amb, amb, true),
                 SplitLines(sp.text))
  }

  /** Removing the codes from a restyled piece leaves the piece's text. */
  lemma Framed(style: seq<Chunk>, mid: seq<Chunk>, restore: seq<Chunk>, rest: seq<Chunk>)
    requires TextOf(style) == [] && TextOf(restore) == []
    ensures TextOf(style + mid + restore + rest) == TextOf(mid) + TextOf(rest)
  {
    TextOfAppend(style + mid + restore, rest);
    TextOfAppend(style + mid, restore);
    TextOfAppend(style, mid);
  }

  /** The separator `write` puts before line number `n`. */
  function Sep(n: nat): string {
    if n != 0 then "\n" else ""
  }

  /** The text of the loop's output: the first line, then the text of the rest of the loop. */
  lemma WriteLinesStep(style: seq<Chunk>, restore: seq<Chunk>, lines: seq<string>, n: nat)
    requires TextOf(style) == [] && TextOf(restore) == [] && |lines| >= 1
    ensures TextOf(WriteLines(style, restore, lines, n))
         == Sep(n) + lines[0] + TextOf(WriteLines(style, restore, lines[1..], n + 1))
  {
    Framed(style, LineChunks(n, lines[0]), restore, WriteLines(style, restore, lines[1..], n + 1));
  }

  lemma JoinLinesCons(lines: seq<string>)
    requires |lines| > 1
    ensures JoinLines(lines) == lines[0] + "\n" + JoinLines(lines[1..])
  {
  }

  lemma RegroupLine(sep: string, line: string, nl: string, rest: string)
    ensures sep + line + (nl + rest) == sep + (line + nl + rest)
  {
  }

  lemma {:induction false} WriteLinesText(style: seq<Chunk>, restore: seq<Chunk>, lines: seq<string>, n: nat)
    requires TextOf(style) == [] && TextOf(restore) == [] && |lines| >= 1
    ensures TextOf(WriteLines(style, restore, lines, n)) == Sep(n) + JoinLines(lines)
    decreases |lines|
  {
    WriteLinesStep(style, restore, lines, n);
    if |lines| > 1 {
      WriteLinesText(style, restore, lines[1..], n + 1);
      JoinLinesCons(lines);
      RegroupLine(Sep(n), lines[0], "\n", JoinLines(lines[1..]));
    } else {
      assert lines[1..] == [];
    }
  }

  /** The text `write` and `print` send, with the control codes removed, is exactly the string's text. */
  lemma WriteKeepsText(amb: FontSettings, sp: StringPlus)
    ensures TextOf(Write(amb, sp)) == sp.text
    ensures TextOf(Print(amb, sp)) == sp.text
  {
    var lines := SplitLines(sp.text);
    WriteLinesText(SendFontSettings(amb, sp.fontSettings, false), SendFontSettings(amb, amb, false), lines, 0);
    WriteLinesText(SendFontSettings(amb, sp.fontSettings, true), SendFontSettings(amb, amb, true), lines, 0);
    JoinSplit(sp.text);
  }

  lemma {:induction false} PrintlnLinesText(style: seq<Chunk>, restore: seq<Chunk>, lines: seq<string>)
    requires TextOf(style) == [] && TextOf(restore) == [] && |lines| >= 1
    ensures TextOf(PrintlnLines(style, restore, lines)) == JoinLines(lines) + "\n"
    decreases |lines|
  {
    var rest := PrintlnLines(style, restore, lines[1..]);
    var nl := [Text("\n")];
    TextOfText("\n");
    TextOfText(lines[0]);
    TextOfAppend(nl, rest);
    Framed(style, [Text(lines[0])], restore, nl + rest);
    if |lines| > 1 {
      PrintlnLinesText(style, restore, lines[1..]);
    } else {
      assert rest == [];
    }
  }

  /** `println` sends the string's text and one newline after it. */
  lemma PrintlnAddsNewline(amb: FontSettings, sp: StringPlus)
    ensures TextOf(Println(amb, sp)) == sp.text + "\n"
  {
    PrintlnLinesText(SendFontSettings(amb, sp.fontSettings, true), SendFontSettings(amb, amb, true),
                     SplitLines(sp.text));
    JoinSplit(sp.text);
  }

  predicate StartsWith(out: seq<Chunk>, front: seq<Chunk>) {
    |front| <= |out| && out[..|front|] == front
  }

  predicate EndsWith(out: seq<Chunk>, back: seq<Chunk>) {
    |back| <= |out| && out[|out| - |back|..] == back
  }

  /** One restyled line starts with the restyle and, whatever follows it, ends like its continuation. */
  lemma FramedEnds(style: seq<Chunk>, mid: seq<Chunk>, restore: seq<Chunk>, rest: seq<Chunk>)
    requires rest == [] || EndsWith(rest, restore)
    ensures StartsWith(style + mid + restore + rest, style) && EndsWith(style + mid + restore + rest, restore)
  {
    var out := style + mid + restore + rest;
    assert out[..|style|] == style;
    if rest == [] {
      assert out == style + mid + restore;
    } else {
      assert out[|out| - |restore|..] == rest[|rest| - |restore|..];
    }
  }

  /** The output of the line loop starts with the restyle and ends with the restore. */
  lemma {:induction false} WriteLinesFrame(style: seq<Chunk>, restore: seq<Chunk>, lines: seq<string>, n: nat)
    requires |lines| >= 1
    ensures StartsWith(WriteLines(style, restore, lines, n), style)
    ensures EndsWith(WriteLines(style, restore, lines, n), restore)
    decreases |lines|
  {
    var rest := WriteLines(style, restore, lines[1..], n + 1);
    if |lines| > 1 {
      WriteLinesFrame(style, restore, lines[1..], n + 1);
    } else {
      assert rest == [];
    }
    FramedEnds(style, LineChunks(n, lines[0]), restore, rest);
  }

  /**
    `write` and `print` start by switching to the string's settings and
    end by switching back to the session's, so the session's rendition is
    in force afterwards.
   */
  lemma WriteRestoresSession(amb: FontSettings, sp: StringPlus, clear: bool)
    ensures var style := SendFontSettings(amb, sp.fontSettings, clear);
      var restore := SendFontSettings(amb, amb, clear);
      var out := if clear then Print(amb, sp) else Write(amb, sp);
      StartsWith(out, style) && EndsWith(out, restore)
  {
    WriteLinesFrame(SendFontSettings(amb, sp.fontSettings, clear), SendFontSettings(amb, amb, clear),
                    SplitLines(sp.text), 0);
  }
}
