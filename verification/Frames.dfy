/**
  The extension protocol's framing (ext/frame.go): a four-byte big-endian
  length, then that many bytes of JSON. The JSON codec is a parameter; what is
  needed of it is that it reads back what it wrote.
*/
module Frames {
  import opened Basics

  type Bytes = seq<Byte>

  const MAX_FRAME_SIZE: nat := 0x100_0000

  /** One message in either direction; `rest` stands for the fields no rule here reads. */
  datatype Frame = Frame(
    kind: string, id: string, protocol: int, ext: string, called: string,
    ok: bool, value: string, error: string, rest: string)

  datatype Codec = Codec(encode: Frame -> Option<Bytes>, decode: Bytes -> Option<Frame>)

  ghost predicate RoundTrips(c: Codec) {
    && (forall f :: c.encode(f).Some? ==> c.decode(c.encode(f).value) == Some(f))
    && c.decode([]) == None
  }

  // ---- The header ---------------------------------------------------------------

  function Header(n: nat): Bytes {
    [n / 0x100_0000 % 256, n / 0x1_0000 % 256, n / 0x100 % 256, n % 256]
  }

  function HeaderSize(h: Bytes): nat
    requires |h| == 4
  {
    h[0] as int * 0x100_0000 + h[1] as int * 0x1_0000 + h[2] as int * 0x100 + h[3] as int
  }

  /** The four bytes invert for every length they can hold, and are never reused. */
  lemma {:induction false} HeaderInverts(n: nat)
    requires n < 0x1_0000_0000
    ensures HeaderSize(Header(n)) == n
  {
    var a, b, c := n / 0x100_0000, n / 0x1_0000, n / 0x100;
    assert c == b * 256 + c % 256;
    assert b == a * 256 + b % 256;
    assert a % 256 == a;
  }

  // ---- Writing and reading one frame ---------------------------------------------

  /** What WriteFrame puts on the wire, or nothing when it refuses. */
  function Wire(c: Codec, f: Frame): Option<Bytes> {
    var body := c.encode(f);
    if body.None? || |body.value| > MAX_FRAME_SIZE then None
    else Some(Header(|body.value|) + body.value)
  }

  datatype Read =
    | Got(frame: Frame)
    | EndOfInput          // io.EOF
    | CutShort            // io.ErrUnexpectedEOF
    | TooLarge
    | Unreadable
    | NoKind

  /** io.ReadFull of n bytes from a stream that then ends. */
  function ReadFull(input: Bytes, n: nat): (Option<Bytes>, Read) {
    if |input| >= n then (Some(input[..n]), EndOfInput)
    else if input == [] then (None, EndOfInput)
    else (None, CutShort)
  }

  /** ReadFrame, and what is left of the stream after it. */
  function ReadFrom(c: Codec, input: Bytes): (Read, Bytes) {
    var (header, err) := ReadFull(input, 4);
    if header.None? then (err, [])
    else
      var size := HeaderSize(header.value);
      if size > MAX_FRAME_SIZE then (TooLarge, input[4..])
      else
        var (body, err) := ReadFull(input[4..], size);
        if body.None? then (err, [])
        else
          var f := c.decode(body.value);
          (if f.None? then Unreadable else if f.value.kind == "" then NoKind else Got(f.value), input[4 + size..])
  }

  class Writer {
    var out: Bytes

    constructor ()
      ensures out == []
    {
      out := [];
    }

    method WriteFrame(c: Codec, f: Frame) returns (ok: bool)
      modifies this
      ensures ok <==> Wire(c, f).Some?
      ensures out == if ok then old(out) + Wire(c, f).value else old(out)
    {
      var body := c.encode(f);
      if body.None? || |body.value| > MAX_FRAME_SIZE {
        return false;
      }
      var header := Header(|body.value|);
      out := out + header;
      out := out + body.value;
      assert old(out) + header + body.value == old(out) + (header + body.value);
      ok := true;
    }
  }

  class Reader {
    var left: Bytes

    constructor (input: Bytes)
      ensures left == input
    {
      left := input;
    }

    method Take(n: nat) returns (got: Option<Bytes>, err: Read)
      modifies this
      ensures (got, err) == ReadFull(old(left), n)
      ensures left == if |old(left)| >= n then old(left)[n..] else []
    {
      if |left| >= n {
        got, err := Some(left[..n]), EndOfInput;
        left := left[n..];
      } else {
        got, err := None, if left == [] then EndOfInput else CutShort;
        left := [];
      }
    }

    method ReadFrame(c: Codec) returns (r: Read)
      modifies this
      ensures (r, left) == ReadFrom(c, old(left))
    {
      var header, err := Take(4);
      if header.None? {
        return err;
      }
      var size := HeaderSize(header.value);
      if size > MAX_FRAME_SIZE {
        return TooLarge;
      }
      var body, err' := Take(size);
      if body.None? {
        return err';
      }
      assert old(left)[4..][size..] == old(left)[4 + size..];
      var f := c.decode(body.value);
      if f.None? {
        return Unreadable;
      }
      if f.value.kind == "" {
        return NoKind;
      }
      r := Got(f.value);
    }
  }

  // ---- Streams of frames ------------------------------------------------------------

  /** Frames WriteFrame accepts and ReadFrame will. */
  predicate Sendable(c: Codec, f: Frame) {
    Wire(c, f).Some? && f.kind != ""
  }

  function WireAll(c: Codec, frames: seq<Frame>): Bytes {
    if frames == [] then []
    else (if Wire(c, frames[0]).Some? then Wire(c, frames[0]).value else []) + WireAll(c, frames[1..])
  }

  /** Every frame up to the first read that is not one. */
  function ReadAll(c: Codec, input: Bytes): (seq<Frame>, Read)
    decreases |input|
  {
    var (r, rest) := ReadFrom(c, input);
    if r.Got? then
      var (more, end) := ReadAll(c, rest);
      ([r.frame] + more, end)
    else ([], r)
  }

  lemma {:induction false} OneFrameReadsBack(c: Codec, f: Frame, rest: Bytes)
    requires RoundTrips(c) && Sendable(c, f)
    ensures ReadFrom(c, Wire(c, f).value + rest) == (Got(f), rest)
  {
    var body := c.encode(f).value;
    var input := Header(|body|) + body + rest;
    HeaderInverts(|body|);
    assert input[..4] == Header(|body|);
    assert input[4..] == body + rest;
    assert (body + rest)[..|body|] == body;
    assert input[4 + |body|..] == rest;
  }

  lemma {:induction false} FirstFrameThenTheRest(c: Codec, f: Frame, rest: Bytes)
    requires RoundTrips(c) && Sendable(c, f)
    ensures ReadAll(c, Wire(c, f).value + rest) == ([f] + ReadAll(c, rest).0, ReadAll(c, rest).1)
  {
    OneFrameReadsBack(c, f, rest);
  }

  /** Reading back any concatenation of written frames yields exactly those frames and
      then whatever the following bytes yield. */
  lemma {:induction false} StreamReadsBack(c: Codec, frames: seq<Frame>, rest: Bytes)
    requires RoundTrips(c) && forall f | f in frames :: Sendable(c, f)
    ensures ReadAll(c, WireAll(c, frames) + rest) ==
            (frames + ReadAll(c, rest).0, ReadAll(c, rest).1)
  {
    if frames == [] {
      assert WireAll(c, frames) + rest == rest;
      assert frames + ReadAll(c, rest).0 == ReadAll(c, rest).0;
    } else {
      var f, more := frames[0], frames[1..];
      assert Sendable(c, f) && forall g | g in more :: g in frames;
      var tail := WireAll(c, more) + rest;
      assert WireAll(c, frames) + rest == Wire(c, f).value + tail;
      FirstFrameThenTheRest(c, f, tail);
      StreamReadsBack(c, more, rest);
      Regroup(frames, ReadAll(c, rest).0);
    }
  }

  lemma {:induction false} Regroup(frames: seq<Frame>, tail: seq<Frame>)
    requires frames != []
    ensures [frames[0]] + (frames[1..] + tail) == frames + tail
  {
  }

  lemma {:induction false} FramesReadBack(c: Codec, frames: seq<Frame>)
    requires RoundTrips(c) && forall f | f in frames :: Sendable(c, f)
    ensures ReadAll(c, WireAll(c, frames)) == (frames, EndOfInput)
  {
    StreamReadsBack(c, frames, []);
    assert WireAll(c, frames) + [] == WireAll(c, frames);
    assert frames + [] == frames;
  }

  /** A frame cut anywhere is not read at all. */
  lemma {:induction false} CutFrameIsNotRead(c: Codec, f: Frame, n: nat)
    requires RoundTrips(c) && Sendable(c, f) && n < |Wire(c, f).value|
    ensures ReadFrom(c, Wire(c, f).value[..n]).0 in {EndOfInput, CutShort}
  {
    var body := c.encode(f).value;
    var input := Wire(c, f).value[..n];
    if n >= 4 {
      HeaderInverts(|body|);
      assert input[..4] == Header(|body|);
    }
  }

  /** Wherever the stream is cut, what is read is a prefix of what was written. */
  lemma {:induction false} CutStreamReadsAPrefix(c: Codec, frames: seq<Frame>, n: nat)
    requires RoundTrips(c) && (forall f | f in frames :: Sendable(c, f)) && n <= |WireAll(c, frames)|
    ensures ReadAll(c, WireAll(c, frames)[..n]).0 <= frames
    ensures ReadAll(c, WireAll(c, frames)[..n]).1 in {EndOfInput, CutShort}
  {
    if frames != [] {
      var f, more := frames[0], frames[1..];
      assert Sendable(c, f) && forall g | g in more :: g in frames;
      var wire := Wire(c, f).value;
      var input := WireAll(c, frames)[..n];
      if n < |wire| {
        assert input == wire[..n];
        CutFrameIsNotRead(c, f, n);
      } else {
        var tail := WireAll(c, more)[..n - |wire|];
        assert input == wire + tail;
        OneFrameReadsBack(c, f, tail);
        CutStreamReadsAPrefix(c, more, n - |wire|);
      }
    }
  }

  /** When a reader is told the input has simply ended: at the end, and also right
      after a header whose body never came. */
  lemma {:induction false} EndOfInputIff(c: Codec, input: Bytes)
    ensures ReadFrom(c, input).0 == EndOfInput <==>
            input == [] || (|input| == 4 && 0 < HeaderSize(input) <= MAX_FRAME_SIZE)
  {
    if |input| >= 4 {
      assert |input| == 4 ==> input[..4] == input;
    }
  }

  /** One byte of body announced and none sent: not told from a clean end. */
  lemma {:induction false} LoneHeaderReadsAsEnd(c: Codec)
    ensures ReadFrom(c, [0, 0, 0, 1]) == (EndOfInput, [])
  {
    assert HeaderSize([0, 0, 0, 1][..4]) == 1;
  }

  function Big(a: int, b: int, c: int, d: int): int {
    16777216 * a + 65536 * b + 256 * c + d
  }

  /** The header is the length in four bytes, the most significant first. */
  lemma {:induction false} HeaderBytes(n: nat)
    requires n < 0x1_0000_0000
    ensures |Header(n)| == 4 && n == Big(Header(n)[0], Header(n)[1], Header(n)[2], Header(n)[3])
  {
    HeaderInverts(n);
  }

  /** A frame is written if and only if it encodes to at most sixteen mebibytes, and then as
      its length and its body. */
  lemma {:induction false} WrittenIff(c: Codec, f: Frame)
    ensures Wire(c, f).Some? <==> c.encode(f).Some? && |c.encode(f).value| <= 16 * 1024 * 1024
    ensures Wire(c, f).Some? ==> Wire(c, f).value[4..] == c.encode(f).value && Wire(c, f).value[..4] == Header(|c.encode(f).value|)
  {
  }

  /** What a read says, by the bytes there are: nothing or a header alone reads as the end,
      less than was announced as cut short, more than sixteen mebibytes announced as too
      large, and a whole body as the frame it is, if it is one with a kind. */
  lemma {:induction false} ReadSays(c: Codec, input: Bytes)
    ensures var r := ReadFrom(c, input).0;
            if |input| == 0 then r == EndOfInput
            else if |input| < 4 then r == CutShort
            else
              var size := Big(input[0], input[1], input[2], input[3]);
              if size > 16 * 1024 * 1024 then r == TooLarge
              else if |input| - 4 < size then r == if |input| == 4 then EndOfInput else CutShort
              else
                var f := c.decode(input[4..4 + size]);
                && ReadFrom(c, input).1 == input[4 + size..]
                && r == if f.None? then Unreadable else if f.value.kind == "" then NoKind else Got(f.value)
  {
    if |input| >= 4 {
      var size := Big(input[0], input[1], input[2], input[3]);
      assert HeaderSize(input[..4]) == size;
      if size <= 16 * 1024 * 1024 && |input| - 4 >= size {
        assert input[4..][..size] == input[4..4 + size];
      }
    }
  }
}
