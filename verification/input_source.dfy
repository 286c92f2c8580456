/**
  The pending input a decoder reads from (src/tui_io/input_interface.rs).
  Both backends deliver a finite snapshot of characters, each made from
  one byte: the Unix backend reads the bytes of a file descriptor, the
  Windows backend the low bytes of queued key-press records. The decoders
  see that character sequence; `ReadRawImmediate` is the non-blocking
  read they use for every continuation byte.
 */
module InputSource {
  import opened Wrappers
  import opened Decimal

  /** A character made from one byte: what both backends' raw reads return. */
  type ByteChar = c: char | c as int < 0x100

  /** The escape character, which starts every control sequence. */
  const ESC: ByteChar := 27 as char

  /** `rest` is what is left of `v` after reading from its front. */
  predicate IsSuffix(rest: seq<ByteChar>, v: seq<ByteChar>) {
    |rest| <= |v| && rest == v[|v| - |rest|..]
  }

  lemma SuffixTransitive(a: seq<ByteChar>, b: seq<ByteChar>, c: seq<ByteChar>)
    requires IsSuffix(b, a) && IsSuffix(c, b)
    ensures IsSuffix(c, a)
  {
  }

  /**
    `read_raw_immediate`: the next pending character, or `None` exactly
    when nothing is pending (the Unix descriptor is switched to
    non-blocking mode for the read, see UnixTuiIo; the Windows backend
    first checks that a record is queued, see WindowsTuiIo).
   */
  function ReadRawImmediate(v: seq<ByteChar>): (r: (Option<ByteChar>, seq<ByteChar>))
    ensures r.0.None? <==> v == []
    ensures r.0.None? ==> r.1 == []
    ensures r.0.Some? ==> r.0.value == v[0] && r.1 == v[1..]
  {
    if v == [] then (None, v) else (Some(v[0]), v[1..])
  }

  /** Reading from a sequence with a known head. */
  lemma ReadFront(b: ByteChar, w: seq<ByteChar>)
    ensures ReadRawImmediate([b] + w) == (Some(b), w)
  {
    assert ([b] + w)[1..] == w;
  }

  /**
    The resynchronising drain: read immediately until nothing is pending.
    Every exit of the escape path that yields `Error` or `Ignore` uses it.
   */
  function Drain(v: seq<ByteChar>): (r: seq<ByteChar>)
    ensures r == []
    decreases |v|
  {
    var (c, rest) := ReadRawImmediate(v);
    match c
    case None => rest
    case Some(_) => Drain(rest)
  }
}
