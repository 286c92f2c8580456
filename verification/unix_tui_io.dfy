/**
  The Unix input backend (src/tui_io/unix_tui_io.rs): blocking and
  non-blocking one-byte reads of the terminal's file descriptor, and the
  `read_parsed` loop that decodes one event per call and never hands out
  `Ignore`. The file descriptor is a snapshot of its status flags and the
  bytes pending on it; `read(2)` and `fcntl(2)` act on that snapshot.
 */
module UnixTuiIo {
  import opened Wrappers
  import opened Decimal
  import opened TuiEvents
  import Src = InputSource
  import opened InputParser

  type ByteChar = Src.ByteChar

  /** `O_NONBLOCK` from src/tui_io/unix/constants.rs. */
  const O_NONBLOCK: bv32 := 2048

  // ---------------------------------------------------------------------------
  // The file descriptor
  // ---------------------------------------------------------------------------

  datatype Fd = Fd(flags: bv32, pending: seq<bv8>)

  /** `(b as u8) as char`: every character read is made from one byte. */
  function CharOfByte(b: bv8): (c: ByteChar)
    ensures c as int == b as int
  {
    (b as int) as char
  }

  /** The characters the pending bytes read as. */
  function Chars(bs: seq<bv8>): (s: seq<ByteChar>)
    ensures |s| == |bs| && forall i :: 0 <= i < |bs| ==> s[i] as int == bs[i] as int
  {
    seq(|bs|, i requires 0 <= i < |bs| => CharOfByte(bs[i]))
  }

  /**
    `read(fd, buf, 1)`: the count it returns and what it leaves in a
    buffer that held 0. With nothing pending, a non-blocking descriptor
    fails with -1 (`EAGAIN`); a blocking one is taken to be at end of
    input and returns 0.
   */
  function ReadOne(fd: Fd): (r: (int, bv8, Fd))
    ensures r.0 == 1 <==> fd.pending != []
    ensures r.0 == 1 ==> r.1 == fd.pending[0] && r.2 == fd.(pending := fd.pending[1..])
    ensures r.0 != 1 ==> r.1 == 0 && r.2 == fd
    ensures r.2.flags == fd.flags
  {
    if fd.pending != [] then (1, fd.pending[0], fd.(pending := fd.pending[1..]))
    else if fd.flags & O_NONBLOCK != 0 then (-1, 0, fd)
    else (0, 0, fd)
  }

  /** The state `NonBlockInputInterface` keeps: the descriptor and its flags as found. */
  datatype NonBlockInputInterface = NonBlockInputInterface(fd: Fd, fdFlags: bv32)

  /** `NonBlockInputInterface::new`: save the flags, then add `O_NONBLOCK`. */
  function NonBlockNew(fd: Fd): (nb: NonBlockInputInterface)
    ensures nb.fdFlags == fd.flags
    ensures nb.fd.flags & O_NONBLOCK == O_NONBLOCK
    ensures nb.fd.flags & !O_NONBLOCK == fd.flags & !O_NONBLOCK
    ensures nb.fd.pending == fd.pending
  {
    NonBlockInputInterface(fd.(flags := fd.flags | O_NONBLOCK), fd.flags)
  }

  /** `NonBlockInputInterface::read_raw_immediate`: `None` unless the read returns exactly 1. */
  function NonBlockRead(nb: NonBlockInputInterface): (r: (Option<ByteChar>, NonBlockInputInterface))
    ensures r.1.fdFlags == nb.fdFlags && r.1.fd.flags == nb.fd.flags
  {
    var (count, b, fd') := ReadOne(nb.fd);
    if count != 1 then (None, nb.(fd := fd')) else (Some(CharOfByte(b)), nb.(fd := fd'))
  }

  /** `Drop for NonBlockInputInterface`: write the saved flags back. */
  function NonBlockDrop(nb: NonBlockInputInterface): (fd: Fd)
    ensures fd.flags == nb.fdFlags && fd.pending == nb.fd.pending
  {
    nb.fd.(flags := nb.fdFlags)
  }

  /**
    `read_raw_immediate` on the descriptor: a non-blocking read between
    construction and drop of a `NonBlockInputInterface`.
   */
  function ReadRawImmediate(fd: Fd): (r: (Option<ByteChar>, Fd))
    ensures r.1.flags == fd.flags
  {
    var nb := NonBlockNew(fd);
    var (c, nb') := NonBlockRead(nb);
    (c, NonBlockDrop(nb'))
  }

  /**
    The immediate read of the descriptor is the immediate read of its
    characters: `None` exactly when nothing is pending, else the next
    byte as a character, with the flags as they were before the call.
   */
  lemma ReadRawImmediateIsCharRead(fd: Fd)
    ensures var r := ReadRawImmediate(fd);
      && r.1.flags == fd.flags
      && (r.0, Chars(r.1.pending)) == Src.ReadRawImmediate(Chars(fd.pending))
  {
    var r := ReadRawImmediate(fd);
    if fd.pending != [] {
      assert Chars(r.1.pending) == Chars(fd.pending)[1..];
    }
  }

  // ---------------------------------------------------------------------------
  // Reads and the event loop, over the pending characters
  // ---------------------------------------------------------------------------

  const NUL: ByteChar := 0 as char

  /**
    `read_char`: a blocking one-byte read into a buffer holding 0. With
    nothing to read the read fails and the 0 is returned as a character.
   */
  function ReadChar(v: seq<ByteChar>): (r: (ByteChar, seq<ByteChar>))
    ensures v != [] ==> r == (v[0], v[1..])
    ensures v == [] ==> r == (NUL, [])
  {
    if v == [] then (NUL, v) else (v[0], v[1..])
  }

  /** `read_raw`: always `Some` of `read_char`. */
  function ReadRaw(v: seq<ByteChar>): (r: (Option<ByteChar>, seq<ByteChar>))
    ensures r.0.Some? && (r.0.value, r.1) == ReadChar(v)
  {
    var (c, rest) := ReadChar(v);
    (Some(c), rest)
  }

  /**
    `read_parsed`: read a byte, decode it, and go round again while the
    result is `Ignore`. `None` stands for a call that is still waiting when
    the pending input runs out.
   */
  function ReadParsed(v: seq<ByteChar>): (r: Option<(TuiEvents, seq<ByteChar>)>)
    ensures r.Some? ==> r.value.0 != Ignore && |r.value.1| < |v|
    decreases |v|
  {
    if v == [] then None
    else
      var (c, rest) := ReadRaw(v);
      match c
      case None => Some((Error, rest))
      case Some(ch) =>
        var (e, rest2) := ParseInput(ch, rest);
        if e == Ignore then ReadParsed(rest2) else Some((e, rest2))
  }

  /** A failed blocking read yields NUL, which decodes to `Ignore`: the loop reads again rather than stop. */
  lemma FailedReadIsIgnored()
    ensures ReadChar([]).0 == NUL && ParseInput(ReadChar([]).0, []) == (Ignore, [])
  {
  }

  /** NUL bytes in front of the input are skipped. */
  lemma ReadParsedSkipsNul(v: seq<ByteChar>)
    ensures ReadParsed([NUL] + v) == ReadParsed(v)
  {
    assert ([NUL] + v)[1..] == v;
  }

  /** A byte that does not decode to `Ignore` is the whole of one `read_parsed` call. */
  lemma ReadParsedStep(c: ByteChar, w: seq<ByteChar>)
    requires ParseInput(c, w).0 != Ignore
    ensures ReadParsed([c] + w) == Some(ParseInput(c, w))
  {
    assert ([c] + w)[1..] == w;
  }

  /** A byte that decodes to `Ignore` is skipped, together with whatever its decoding consumed. */
  lemma IgnoredStep(c: ByteChar, w: seq<ByteChar>)
    requires ParseInput(c, w).0 == Ignore
    ensures ReadParsed([c] + w) == ReadParsed(ParseInput(c, w).1)
  {
    assert ([c] + w)[1..] == w;
  }

  /** `Error` from `read_parsed` comes only from the escape path, so it always leaves nothing pending. */
  lemma {:induction false} ReadParsedErrorDrains(v: seq<ByteChar>)
    ensures ReadParsed(v).Some? && ReadParsed(v).value.0 == Error ==> ReadParsed(v).value.1 == []
    decreases |v|
  {
    if v != [] {
      var (e, rest) := ParseInput(v[0], v[1..]);
      if e == Ignore {
        ReadParsedErrorDrains(rest);
      }
    }
  }

  // ---------------------------------------------------------------------------
  // Whole streams
  // ---------------------------------------------------------------------------

  /** Every event `read_parsed` returns before the pending input runs out, in order. */
  function DecodeAll(v: seq<ByteChar>): seq<TuiEvents>
    decreases |v|
  {
    match ReadParsed(v)
    case None => []
    case Some((e, rest)) => [e] + DecodeAll(rest)
  }

  /** `DecodeAll` never yields `Ignore`. */
  lemma {:induction false} DecodeAllNoIgnore(v: seq<ByteChar>)
    ensures forall i :: 0 <= i < |DecodeAll(v)| ==> DecodeAll(v)[i] != Ignore
    decreases |v|
  {
    match ReadParsed(v)
    case None =>
    case Some((e, rest)) =>
      DecodeAllNoIgnore(rest);
      assert DecodeAll(v) == [e] + DecodeAll(rest);
  }

  /** The bytes a terminal sends for a sequence of events. */
  function EncodeAll(es: seq<TuiEvents>): seq<ByteChar>
    requires forall i :: 0 <= i < |es| ==> Encodable(es[i])
  {
    if es == [] then [] else Encode(es[0]) + EncodeAll(es[1..])
  }

  /** `Escape` can only be the last event of a stream: it is the `ESC` with nothing after it. */
  predicate WellFormedStream(es: seq<TuiEvents>) {
    && (forall i :: 0 <= i < |es| ==> Encodable(es[i]))
    && (forall i :: 0 <= i < |es| - 1 ==> es[i] != Escape)
  }

  /** One event at the front of the input is what `read_parsed` returns, leaving the rest. */
  lemma ReadParsedEncoded(e: TuiEvents, tail: seq<ByteChar>)
    requires Encodable(e) && (e == Escape ==> tail == [])
    ensures ReadParsed(Encode(e) + tail) == Some((e, tail))
  {
    var s := Encode(e);
    DecodeEncoded(e, tail);
    ReadParsedStep(s[0], s[1..] + tail);
    SplitFront(s, tail);
  }

  lemma SplitFront(s: seq<ByteChar>, tail: seq<ByteChar>)
    requires s != []
    ensures s + tail == [s[0]] + (s[1..] + tail)
  {
  }

  /** Decoding the bytes of a well-formed stream of events gives back exactly those events. */
  lemma {:induction false} DecodeEncodeAll(es: seq<TuiEvents>)
    requires WellFormedStream(es)
    ensures DecodeAll(EncodeAll(es)) == es
    decreases |es|
  {
    if es != [] {
      var tail := EncodeAll(es[1..]);
      assert es[0] == Escape ==> es[1..] == [] && tail == [];
      ReadParsedEncoded(es[0], tail);
      DecodeEncodeAll(es[1..]);
      assert [es[0]] + es[1..] == es;
    }
  }

  /**
    An escape sequence that decodes to `Ignore` takes everything after it
    with it: with `ReleaseDiscardsQueued`, events queued behind a button
    release never reach the client.
   */
  lemma IgnoredEscapeEndsStream(w: seq<ByteChar>)
    requires ParseInput(Src.ESC, w).0 == Ignore
    ensures DecodeAll([Src.ESC] + w) == []
  {
    IgnoredStep(Src.ESC, w);
  }

  /**
    The loop of repeated `read_parsed` calls a client runs, until a call
    would wait for more input.
   */
  method ReadAll(v: seq<ByteChar>) returns (events: seq<TuiEvents>)
    ensures events == DecodeAll(v)
  {
    events := [];
    var rest := v;
    var next := ReadParsed(rest);
    while next.Some?
      invariant next == ReadParsed(rest)
      invariant events + DecodeAll(rest) == DecodeAll(v)
      decreases |rest|
    {
      var (e, rest') := next.value;
      assert DecodeAll(rest) == [e] + DecodeAll(rest');
      events := events + [e];
      rest := rest';
      next := ReadParsed(rest);
    }
  }
}
