/** The binary output framing: `[kind: u8][stream: u32 BE][len: u32 BE][payload]`. */
module Frames {
  import opened Prelude

  const FRAME_HEADER_BYTES := 9
  const STREAM_ID_OFFSET := 1
  const LENGTH_OFFSET := 5
  const MAX_FRAME_PAYLOAD_BYTES := 0x10_0000

  /** `StreamId::RESERVED`, which no frame may carry. */
  const RESERVED: U32 := 0

  datatype FrameKind = Output | Exit | Bell | Osc133 | Credit | ReplayEnd | AgentStatus

  function AsByte(kind: FrameKind): Byte {
    match kind
    case Output => 1
    case Exit => 2
    case Bell => 3
    case Osc133 => 4
    case Credit => 5
    case ReplayEnd => 6
    case AgentStatus => 7
  }

  function FromByte(byte: Byte): Option<FrameKind> {
    if byte == 1 then Some(Output)
    else if byte == 2 then Some(Exit)
    else if byte == 3 then Some(Bell)
    else if byte == 4 then Some(Osc133)
    else if byte == 5 then Some(Credit)
    else if byte == 6 then Some(ReplayEnd)
    else if byte == 7 then Some(AgentStatus)
    else None
  }

  datatype Frame = Frame(kind: FrameKind, stream: U32, payload: seq<Byte>)

  datatype FrameError =
    | UnknownKind(byte: Byte)
    | ReservedStream(id: U32)
    | Oversized(len: nat)

  datatype Encoded = Encoded(bytes: seq<Byte>) | Refused(error: FrameError)

  datatype Decoded = NotYet | Got(frame: Frame, consumed: nat) | Corrupt(error: FrameError)

  /** What the wire accepts: an assigned stream and a payload within the ceiling. */
  predicate Sendable(f: Frame) {
    f.stream != RESERVED && |f.payload| <= MAX_FRAME_PAYLOAD_BYTES
  }

  function Header(f: Frame): seq<Byte>
    requires Sendable(f)
  {
    [AsByte(f.kind)] + ToBE(f.stream) + ToBE(|f.payload|)
  }

  /** The bytes one frame becomes, or why it is refused: the reserved id first, then the length. */
  function Encode(f: Frame): (e: Encoded)
    ensures e.Encoded? <==> Sendable(f)
  {
    if f.stream == RESERVED then Refused(ReservedStream(f.stream))
    else if |f.payload| > MAX_FRAME_PAYLOAD_BYTES then Refused(Oversized(|f.payload|))
    else Encoded(Header(f) + f.payload)
  }

  /** The frame at the front of `buf`. Every field is checked as soon as it has arrived. */
  function Decode(buf: seq<Byte>): Decoded {
    if buf == [] then NotYet
    else if FromByte(buf[0]).None? then Corrupt(UnknownKind(buf[0]))
    else if |buf| < LENGTH_OFFSET then NotYet
    else
      var stream := FromBE(buf[STREAM_ID_OFFSET..LENGTH_OFFSET]);
      if stream == RESERVED then Corrupt(ReservedStream(stream))
      else if |buf| < FRAME_HEADER_BYTES then NotYet
      else
        var len := FromBE(buf[LENGTH_OFFSET..FRAME_HEADER_BYTES]);
        if len > MAX_FRAME_PAYLOAD_BYTES then Corrupt(Oversized(len))
        else
          var end := FRAME_HEADER_BYTES + len;
          if |buf| < end then NotYet
          else Got(Frame(FromByte(buf[0]).value, stream, buf[FRAME_HEADER_BYTES..end]), end)
  }

  /** A growable byte buffer: Rust's `Vec<u8>` behind a `&mut`. */
  class ByteVec {
    var bytes: seq<Byte>

    constructor ()
      ensures bytes == []
    {
      bytes := [];
    }

    /** `encode_into`: append a whole frame, or leave the buffer exactly as it was. */
    method EncodeInto(f: Frame) returns (refused: Option<FrameError>)
      modifies this
      ensures refused.None? <==> Sendable(f)
      ensures refused.None? ==> old(bytes) <= bytes && Encode(f) == Encoded(bytes[|old(bytes)|..])
      ensures refused.Some? ==> Encode(f) == Refused(refused.value) && bytes == old(bytes)
    {
      if f.stream == RESERVED {
        return Some(ReservedStream(f.stream));
      }
      if |f.payload| > MAX_FRAME_PAYLOAD_BYTES {
        return Some(Oversized(|f.payload|));
      }
      bytes := bytes + [AsByte(f.kind)];
      bytes := bytes + ToBE(f.stream);
      bytes := bytes + ToBE(|f.payload|);
      bytes := bytes + f.payload;
      assert bytes[|old(bytes)|..] == Header(f) + f.payload;
      return None;
    }
  }

  // ----- One frame: the two directions are inverse -----

  /** A proper prefix of an encoding waits, and the whole of it with anything behind comes back. */
  lemma DecodeEncode(f: Frame, rest: seq<Byte>, cut: nat)
    requires Sendable(f)
    requires cut < |Encode(f).bytes|
    ensures Decode(Encode(f).bytes + rest) == Got(f, |Encode(f).bytes|)
    ensures Decode(Encode(f).bytes[..cut]) == NotYet
  {
    var e := Encode(f).bytes;
    var buf := e + rest;
    FromToBE(f.stream);
    FromToBE(|f.payload|);
    assert buf[STREAM_ID_OFFSET..LENGTH_OFFSET] == ToBE(f.stream);
    assert buf[LENGTH_OFFSET..FRAME_HEADER_BYTES] == ToBE(|f.payload|);
    assert buf[FRAME_HEADER_BYTES..FRAME_HEADER_BYTES + |f.payload|] == f.payload;
    if LENGTH_OFFSET <= cut {
      assert e[..cut][STREAM_ID_OFFSET..LENGTH_OFFSET] == ToBE(f.stream);
    }
    if FRAME_HEADER_BYTES <= cut {
      assert e[..cut][LENGTH_OFFSET..FRAME_HEADER_BYTES] == ToBE(|f.payload|);
    }
  }

  /** The encoding is canonical: a buffer decodes to a frame only if it starts with its encoding. */
  lemma EncodeDecode(buf: seq<Byte>)
    requires Decode(buf).Got?
    ensures var Got(f, n) := Decode(buf);
      Sendable(f) && FRAME_HEADER_BYTES <= n <= |buf| && Encode(f) == Encoded(buf[..n])
  {
    var Got(f, n) := Decode(buf);
    ToFromBE(buf[STREAM_ID_OFFSET..LENGTH_OFFSET]);
    ToFromBE(buf[LENGTH_OFFSET..FRAME_HEADER_BYTES]);
    assert Header(f) + f.payload == buf[..n];
  }

  /** Four bytes, most significant first. */
  function Number(a: int, b: int, c: int, d: int): int {
    a * 0x100_0000 + b * 0x1_0000 + c * 0x100 + d
  }

  /** The nine bytes themselves: the kind's number, then the id and the length, most significant byte first. */
  lemma HeaderBytes(f: Frame)
    requires Sendable(f)
    ensures var e := Encode(f).bytes;
      && |e| == 9 + |f.payload| && e[9..] == f.payload
      && Number(e[1], e[2], e[3], e[4]) == f.stream && Number(e[5], e[6], e[7], e[8]) == |f.payload|
    ensures Encode(f).bytes[0] ==
      match f.kind
      case Output => 1
      case Exit => 2
      case Bell => 3
      case Osc133 => 4
      case Credit => 5
      case ReplayEnd => 6
      case AgentStatus => 7
  {
    var e := Encode(f).bytes;
    FromToBE(f.stream);
    FromToBE(|f.payload|);
    assert e[1..5] == ToBE(f.stream) && e[5..9] == ToBE(|f.payload|);
    assert [e[1], e[2], e[3], e[4]] == e[1..5] && [e[5], e[6], e[7], e[8]] == e[5..9];
  }

  /** What is refused, and why: the reserved id before the length, and nothing else. */
  lemma RefusedFor(f: Frame)
    ensures f.stream == 0 ==> Encode(f) == Refused(ReservedStream(0))
    ensures f.stream != 0 && |f.payload| > 1024 * 1024 ==> Encode(f) == Refused(Oversized(|f.payload|))
    ensures f.stream != 0 && |f.payload| <= 1024 * 1024 ==> Encode(f).Encoded?
  {
  }

  /** And what is corrupt: a first byte that is no kind, an id of zero, a length past the ceiling, as soon as it is there. */
  lemma CorruptFor(buf: seq<Byte>)
    ensures buf != [] && !(1 <= buf[0] <= 7) ==> Decode(buf) == Corrupt(UnknownKind(buf[0]))
    ensures 5 <= |buf| && 1 <= buf[0] <= 7 && buf[1] == buf[2] == buf[3] == buf[4] == 0 ==>
      Decode(buf) == Corrupt(ReservedStream(0))
    ensures 9 <= |buf| && 1 <= buf[0] <= 7 && (buf[1] > 0 || buf[2] > 0 || buf[3] > 0 || buf[4] > 0) ==>
      var len := Number(buf[5], buf[6], buf[7], buf[8]);
      Decode(buf) == Corrupt(Oversized(len)) <==> len > 1024 * 1024
  {
    if 5 <= |buf| {
      assert buf[1..5] == [buf[1], buf[2], buf[3], buf[4]];
    }
    if 9 <= |buf| {
      assert buf[5..9] == [buf[5], buf[6], buf[7], buf[8]];
    }
  }

  /** An answer, once given, is not changed by what arrives behind it. */
  lemma DecodeStable(buf: seq<Byte>, more: seq<Byte>)
    requires !Decode(buf).NotYet?
    ensures Decode(buf + more) == Decode(buf)
  {
    var b := buf + more;
    if LENGTH_OFFSET <= |buf| {
      assert b[STREAM_ID_OFFSET..LENGTH_OFFSET] == buf[STREAM_ID_OFFSET..LENGTH_OFFSET];
    }
    if FRAME_HEADER_BYTES <= |buf| {
      assert b[LENGTH_OFFSET..FRAME_HEADER_BYTES] == buf[LENGTH_OFFSET..FRAME_HEADER_BYTES];
    }
    if Decode(buf).Got? {
      var end := Decode(buf).consumed;
      assert b[FRAME_HEADER_BYTES..end] == buf[FRAME_HEADER_BYTES..end];
    }
  }

  /** The length bytes that have arrived so far, filled up with the smallest that could follow. */
  function SmallestLength(buf: seq<Byte>): U32
    requires LENGTH_OFFSET <= |buf|
  {
    if FRAME_HEADER_BYTES <= |buf| then FromBE(buf[LENGTH_OFFSET..FRAME_HEADER_BYTES])
    else FromBE(buf[LENGTH_OFFSET..] + seq(FRAME_HEADER_BYTES - |buf|, _ => 0))
  }

  /**
    * Waiting is not the same as hoping. Some waiting buffers can never become a frame, and the
    * exact condition is that the length seen so far is already past the ceiling.
    */
  lemma WaitingCanFinish(buf: seq<Byte>)
    requires Decode(buf) == NotYet
    ensures (exists more :: Decode(buf + more).Got?) <==>
            (LENGTH_OFFSET <= |buf| ==> SmallestLength(buf) <= MAX_FRAME_PAYLOAD_BYTES)
  {
    if LENGTH_OFFSET <= |buf| && SmallestLength(buf) > MAX_FRAME_PAYLOAD_BYTES {
      forall more ensures !Decode(buf + more).Got? {
        NeverFinishes(buf, more);
      }
    } else {
      var more := Completion(buf);
      assert Decode(buf + more).Got?;
    }
  }

  lemma NeverFinishes(buf: seq<Byte>, more: seq<Byte>)
    requires Decode(buf) == NotYet && LENGTH_OFFSET <= |buf|
    requires SmallestLength(buf) > MAX_FRAME_PAYLOAD_BYTES
    ensures !Decode(buf + more).Got?
  {
    var b := buf + more;
    if FRAME_HEADER_BYTES <= |b| {
      var full := b[LENGTH_OFFSET..FRAME_HEADER_BYTES];
      assert SmallestLength(buf) <= FromBE(full) by {
        var low := buf[LENGTH_OFFSET..] + seq(FRAME_HEADER_BYTES - |buf|, _ => 0);
        assert forall i :: 0 <= i < 4 ==> low[i] <= full[i];
      }
    }
  }

  /** A shortest way to finish a waiting buffer. */
  lemma Completion(buf: seq<Byte>) returns (more: seq<Byte>)
    requires Decode(buf) == NotYet
    requires LENGTH_OFFSET <= |buf| ==> SmallestLength(buf) <= MAX_FRAME_PAYLOAD_BYTES
    ensures Decode(buf + more).Got?
  {
    var whole := buf;
    if |whole| < LENGTH_OFFSET {
      whole := StreamAdded(whole);
    }
    if |whole| < FRAME_HEADER_BYTES {
      whole := LengthAdded(whole);
    }
    if Decode(whole) == NotYet {
      whole := PayloadAdded(whole);
    }
    more := whole[|buf|..];
    assert buf + more == whole;
  }

  /** The rest of an id, filled up with ones, so that it is no reserved one. */
  lemma StreamAdded(buf: seq<Byte>) returns (start: seq<Byte>)
    requires |buf| < LENGTH_OFFSET && Decode(buf) == NotYet
    ensures buf <= start && |start| == LENGTH_OFFSET && Decode(start) == NotYet
    ensures SmallestLength(start) <= MAX_FRAME_PAYLOAD_BYTES
  {
    start := buf + seq(LENGTH_OFFSET - |buf|, _ => 1);
    assert start[STREAM_ID_OFFSET..LENGTH_OFFSET][3] == 1;
    assert buf != [] ==> start[0] == buf[0];
  }

  /** The rest of a header, filled up with zeros. */
  lemma LengthAdded(buf: seq<Byte>) returns (header: seq<Byte>)
    requires LENGTH_OFFSET <= |buf| < FRAME_HEADER_BYTES && Decode(buf) == NotYet
    requires SmallestLength(buf) <= MAX_FRAME_PAYLOAD_BYTES
    ensures buf <= header && |header| == FRAME_HEADER_BYTES && !Decode(header).Corrupt?
  {
    var zeros: seq<Byte> := seq(FRAME_HEADER_BYTES - |buf|, _ => 0);
    header := buf + zeros;
    assert header[0] == buf[0];
    assert header[STREAM_ID_OFFSET..LENGTH_OFFSET] == buf[STREAM_ID_OFFSET..LENGTH_OFFSET];
    assert header[LENGTH_OFFSET..FRAME_HEADER_BYTES] == buf[LENGTH_OFFSET..] + zeros;
  }

  /** The rest of a payload, whatever it is. */
  lemma PayloadAdded(buf: seq<Byte>) returns (whole: seq<Byte>)
    requires FRAME_HEADER_BYTES <= |buf| && Decode(buf) == NotYet
    ensures buf <= whole && Decode(whole).Got?
  {
    var len := FromBE(buf[LENGTH_OFFSET..FRAME_HEADER_BYTES]);
    whole := buf + seq(len, _ => 0);
    assert whole[0] == buf[0];
    assert whole[STREAM_ID_OFFSET..LENGTH_OFFSET] == buf[STREAM_ID_OFFSET..LENGTH_OFFSET];
    assert whole[LENGTH_OFFSET..FRAME_HEADER_BYTES] == buf[LENGTH_OFFSET..FRAME_HEADER_BYTES];
  }
}
