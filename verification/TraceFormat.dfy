/** The binary trace format: fixed-size headers, each followed by a payload of the length it gives. */
module TraceFormat {
  import opened Options
  import opened Bits
  import opened Fifo

  const FIFO_SIZE := 8192
  const HEADER_SIZE := 48
  const MAGIC := 0x6561_7407  // the magic and the version in its low byte

  function Number(bytes: seq<Byte>): nat {
    if bytes == [] then 0 else bytes[0] + 256 * Number(bytes[1..])
  }

  function Swapped(bytes: seq<Byte>): seq<Byte> {
    if bytes == [] then [] else Swapped(bytes[1..]) + [bytes[0]]
  }

  function Field(bytes: seq<Byte>, swap: bool): nat {
    Number(if swap then Swapped(bytes) else bytes)
  }

  predicate MagicOk(header: seq<Byte>, swap: bool)
    requires |header| == HEADER_SIZE
  {
    Field(header[..4], swap) == MAGIC
  }

  lemma FourBytes(b: seq<Byte>)
    requires |b| == 4
    ensures Number(b) == b[0] as int + 0x100 * (b[1] as int) + 0x1_0000 * (b[2] as int) + 0x100_0000 * (b[3] as int)
    ensures Swapped(b) == [b[3], b[2], b[1], b[0]]
  {
    assert b[1..][1..] == b[2..] && b[2..][1..] == b[3..] && b[3..][1..] == [];
    assert Number(b[3..]) == b[3] && Number(b[2..]) == b[2] as int + 0x100 * (b[3] as int);
    assert Swapped(b[3..]) == [b[3]] && Swapped(b[2..]) == [b[3], b[2]];
    assert Swapped(b[1..]) == [b[3], b[2], b[1]];
  }

  /** The magic test accepts one byte pattern, and with swapping the same pattern back to front. */
  lemma MagicBytes(header: seq<Byte>, swap: bool)
    requires |header| == HEADER_SIZE
    ensures MagicOk(header, swap) <==>
            header[..4] == if swap then [0x65, 0x61, 0x74, 0x07] else [0x07, 0x74, 0x61, 0x65]
  {
    FourBytes(header[..4]);
    FourBytes(Swapped(header[..4]));
  }

  /** pdu_len: the last two bytes of a header. */
  function PayloadLen(header: seq<Byte>, swap: bool): (n: nat)
    requires |header| == HEADER_SIZE
    ensures n == if swap then header[47] as int + 0x100 * (header[46] as int)
                 else header[46] as int + 0x100 * (header[47] as int)
  {
    TwoBytes(header[46..48]);
    Field(header[46..48], swap)
  }

  lemma TwoBytes(b: seq<Byte>)
    requires |b| == 2
    ensures Number(b) == b[0] as int + 0x100 * (b[1] as int)
    ensures Number(Swapped(b)) == b[1] as int + 0x100 * (b[0] as int)
  {
    assert b[1..] == [b[1]] && b[1..][1..] == [];
    assert Swapped(b[1..]) == [b[1]];
    assert Swapped(b) == [b[1], b[0]];
    assert Swapped(b)[1..] == [b[0]] && Swapped(b)[1..][1..] == [];
  }

  /** The headers of a trace, and whether it ended without an error. */
  datatype Parsed = Parsed(headers: seq<seq<Byte>>, ok: bool)

  datatype Next = Trace(header: seq<Byte>) | End | Failed

  /** The trace a file starts with: a header, then as much payload as the header says. */
  function First(file: seq<Byte>, swap: bool): (r: Next)
    ensures r.Trace? ==> |r.header| == HEADER_SIZE && HEADER_SIZE + PayloadLen(r.header, swap) <= |file|
  {
    if |file| < HEADER_SIZE then End
    else if !MagicOk(file[..HEADER_SIZE], swap) then Failed
    else
      var len := PayloadLen(file[..HEADER_SIZE], swap);
      if HEADER_SIZE + len > |file| || len > FIFO_SIZE then Failed else Trace(file[..HEADER_SIZE])
  }

  /** What a whole trace file means. */
  function Parse(file: seq<Byte>, swap: bool): Parsed
    decreases |file|
  {
    match First(file, swap)
    case End => Parsed([], true)
    case Failed => Parsed([], false)
    case Trace(header) =>
      var rest := Parse(file[HEADER_SIZE + PayloadLen(header, swap)..], swap);
      Parsed([header] + rest.headers, rest.ok)
  }

  lemma ParseFrom(file: seq<Byte>, at: nat, swap: bool)
    requires at <= |file|
    ensures var p, next := Parse(file[at..], swap), First(file[at..], swap);
            if next.Trace? then
              var rest := Parse(file[at + HEADER_SIZE + PayloadLen(next.header, swap)..], swap);
              p == Parsed([next.header] + rest.headers, rest.ok)
            else
              p == Parsed([], next.End?)
  {
    hide First, PayloadLen;
    var next := First(file[at..], swap);
    if next.Trace? {
      var len := HEADER_SIZE + PayloadLen(next.header, swap);
      assert file[at..][len..] == file[at + len..];
    }
  }

  datatype Frame = Frame(header: seq<Byte>, payload: seq<Byte>)

  predicate WellFormed(f: Frame, swap: bool) {
    && |f.header| == HEADER_SIZE && MagicOk(f.header, swap)
    && |f.payload| == PayloadLen(f.header, swap)
  }

  function Written(frames: seq<Frame>): seq<Byte> {
    if frames == [] then [] else frames[0].header + frames[0].payload + Written(frames[1..])
  }

  function Headers(frames: seq<Frame>): seq<seq<Byte>> {
    if frames == [] then [] else [frames[0].header] + Headers(frames[1..])
  }

  /** The number of frames before the first whose payload is longer than the FIFO. */
  function Fitting(frames: seq<Frame>): (n: nat)
    ensures n <= |frames|
    ensures n == |frames| <==> forall i :: 0 <= i < |frames| ==> |frames[i].payload| <= FIFO_SIZE
  {
    if frames == [] || |frames[0].payload| > FIFO_SIZE then 0 else 1 + Fitting(frames[1..])
  }

  /** Parsing is the inverse of writing well-formed frames one after the other, up to the first payload that does not
      fit the FIFO: that one cannot be discarded in one go, and the trace is refused there. */
  lemma {:induction false} ParseWritten(frames: seq<Frame>, swap: bool)
    requires forall i :: 0 <= i < |frames| ==> WellFormed(frames[i], swap)
    ensures Parse(Written(frames), swap) ==
            Parsed(Headers(frames[..Fitting(frames)]), Fitting(frames) == |frames|)
  {
    hide MagicOk, PayloadLen;
    if frames != [] {
      var f, file, rest := frames[0], Written(frames), frames[1..];
      assert WellFormed(f, swap);
      assert file[..HEADER_SIZE] == f.header;
      assert file[HEADER_SIZE + |f.payload|..] == Written(rest);
      ParseWritten(rest, swap);
      assert Fitting(frames) > 0 ==> frames[..Fitting(frames)][1..] == rest[..Fitting(rest)];
    }
  }

  /** A header with the right magic and a payload length of `lo + 256 * hi`, in either byte order. */
  function HeaderOf(lo: Byte, hi: Byte, swap: bool): (h: seq<Byte>)
    ensures |h| == HEADER_SIZE
  {
    if swap then [0x65, 0x61, 0x74, 0x07] + seq(42, _ => 0) + [hi, lo]
    else [0x07, 0x74, 0x61, 0x65] + seq(42, _ => 0) + [lo, hi]
  }

  lemma HeaderOfOk(lo: Byte, hi: Byte, swap: bool)
    ensures MagicOk(HeaderOf(lo, hi, swap), swap)
    ensures PayloadLen(HeaderOf(lo, hi, swap), swap) == lo as int + 0x100 * (hi as int)
  {
    MagicBytes(HeaderOf(lo, hi, swap), swap);
  }

  /** A frame with a payload of `n` zero bytes. */
  function FrameOf(n: nat, swap: bool): Frame
    requires n < 0x1_0000
  {
    Frame(HeaderOf(n % 0x100, n / 0x100, swap), seq(n, _ => 0))
  }

  lemma FrameOfOk(n: nat, swap: bool)
    requires n < 0x1_0000
    ensures WellFormed(FrameOf(n, swap), swap) && |FrameOf(n, swap).payload| == n
  {
    hide MagicOk, PayloadLen, HeaderOf;
    HeaderOfOk(n % 0x100, n / 0x100, swap);
  }

  /** The failing input: one well-formed frame with a payload of 8193 bytes is refused. */
  lemma LongPayload(swap: bool) returns (f: Frame)
    ensures WellFormed(f, swap) && |f.payload| == FIFO_SIZE + 1
    ensures Parse(Written([f]), swap) == Parsed([], false)
  {
    hide MagicOk, PayloadLen, HeaderOf, Parse, FrameOf;
    f := FrameOf(FIFO_SIZE + 1, swap);
    FrameOfOk(FIFO_SIZE + 1, swap);
    ParseWritten([f], swap);
    assert [f][..0] == [];
  }

  /** The bytes that the traces with these headers take up. */
  function Extent(headers: seq<seq<Byte>>, swap: bool): nat
    requires forall h :: h in headers ==> |h| == HEADER_SIZE
  {
    if headers == [] then 0
    else
      assert headers[0] in headers;
      HEADER_SIZE + PayloadLen(headers[0], swap) + Extent(headers[1..], swap)
  }

  /** A file has no traces and no error exactly when it is shorter than a header. */
  lemma NothingParsed(file: seq<Byte>, swap: bool)
    ensures Parse(file, swap) == Parsed([], true) <==> |file| < HEADER_SIZE
  {
    hide MagicOk, PayloadLen;
  }
}
