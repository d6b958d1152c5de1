/** Reassembling frames from a stream that neither starts nor stops on frame boundaries. */
module FrameDecoding {
  import opened Prelude
  import opened Frames

  datatype Verdict = Waiting | Broken(error: FrameError)

  datatype Drained = Drained(frames: seq<Frame>, rest: seq<Byte>, verdict: Verdict)

  /** What a whole byte string means: the frames in it, what is left over, and why it stopped there. */
  function Drain(buf: seq<Byte>): Drained
    decreases |buf|
  {
    match Decode(buf)
    case NotYet => Drained([], buf, Waiting)
    case Corrupt(error) => Drained([], buf, Broken(error))
    case Got(f, n) =>
      var d := Drain(buf[n..]);
      Drained([f] + d.frames, d.rest, d.verdict)
  }

  datatype Next = Whole(frame: Frame) | Arriving | Failed(error: FrameError)

  class FrameDecoder {
    var buffer: seq<Byte>

    constructor ()
      ensures buffer == []
    {
      buffer := [];
    }

    /** Add whatever the last read produced. */
    method Push(bytes: seq<Byte>)
      modifies this
      ensures buffer == old(buffer) + bytes
    {
      buffer := buffer + bytes;
    }

    /** Take the next whole frame. Anything else leaves the bytes where they are. */
    method NextFrame() returns (next: Next)
      modifies this
      ensures next.Whole? ==> Sendable(next.frame) && old(buffer) == Encode(next.frame).bytes + buffer
      ensures !next.Whole? ==> buffer == old(buffer)
      ensures match Decode(old(buffer))
              case NotYet => next == Arriving
              case Corrupt(error) => next == Failed(error)
              case Got(f, n) => next == Whole(f) && buffer == old(buffer)[n..]
    {
      match Decode(buffer)
      case NotYet =>
        next := Arriving;
      case Corrupt(error) =>
        next := Failed(error);
      case Got(frame, consumed) =>
        EncodeDecode(buffer);
        buffer := buffer[consumed..];
        next := Whole(frame);
    }

    /** The reader's inner loop: pull frames until there are none left or the stream is corrupt. */
    method TakeAll() returns (frames: seq<Frame>, verdict: Verdict)
      modifies this
      ensures Drained(frames, buffer, verdict) == Drain(old(buffer))
    {
      frames, verdict := [], Waiting;
      ghost var whole := Drain(buffer);
      while true
        invariant verdict == Waiting
        invariant whole == var d := Drain(buffer); Drained(frames + d.frames, d.rest, d.verdict)
        decreases |buffer|
      {
        var next := NextFrame();
        match next
        case Whole(frame) =>
          frames := frames + [frame];
        case Arriving =>
          return;
        case Failed(error) =>
          verdict := Broken(error);
          return;
      }
    }
  }

  function Concat(chunks: seq<seq<Byte>>): seq<Byte> {
    if chunks == [] then [] else chunks[0] + Concat(chunks[1..])
  }

  lemma {:induction false} ConcatSnoc(chunks: seq<seq<Byte>>, chunk: seq<Byte>)
    ensures Concat(chunks + [chunk]) == Concat(chunks) + chunk
  {
    if chunks == [] {
      assert [] + [chunk] == [chunk];
    } else {
      ConcatSnoc(chunks[1..], chunk);
      assert (chunks + [chunk])[1..] == chunks[1..] + [chunk];
    }
  }

  lemma {:induction false} ConcatSplit(a: seq<seq<Byte>>, b: seq<seq<Byte>>)
    ensures Concat(a + b) == Concat(a) + Concat(b)
  {
    if a == [] {
      assert a + b == b;
    } else {
      ConcatSplit(a[1..], b);
      assert (a + b)[1..] == a[1..] + b;
    }
  }

  /**
    * The reader: whatever pieces a byte string is delivered in, the frames and the verdict are those
    * of the string as a whole, and a reader that is still waiting holds exactly what is left over.
    */
  method ReadChunks(chunks: seq<seq<Byte>>) returns (frames: seq<Frame>, verdict: Verdict, decoder: FrameDecoder)
    ensures var d := Drain(Concat(chunks));
      frames == d.frames && verdict == d.verdict && (verdict == Waiting ==> decoder.buffer == d.rest)
  {
    frames, verdict := [], Waiting;
    decoder := new FrameDecoder();
    assert chunks[..0] == [];
    for i := 0 to |chunks|
      invariant verdict == Waiting
      invariant Drain(Concat(chunks[..i])) == Drained(frames, decoder.buffer, Waiting)
    {
      ghost var before := Concat(chunks[..i]);
      ConcatSnoc(chunks[..i], chunks[i]);
      assert chunks[..i] + [chunks[i]] == chunks[..i + 1];
      DrainSplit(before, chunks[i]);
      decoder.Push(chunks[i]);
      var more, v := decoder.TakeAll();
      frames, verdict := frames + more, v;
      if verdict.Broken? {
        ghost var tail := Concat(chunks[i + 1..]);
        ConcatSplit(chunks[..i + 1], chunks[i + 1..]);
        assert chunks[..i + 1] + chunks[i + 1..] == chunks;
        DrainSplit(before + chunks[i], tail);
        return;
      }
    }
    assert chunks[..|chunks|] == chunks;
  }

  /**
    * Draining in two goes. A decoder still waiting carries on from what it held; a broken one gives
    * the same error for ever and only grows.
    */
  lemma {:induction false} DrainSplit(a: seq<Byte>, b: seq<Byte>)
    ensures Drain(a + b) == Resume(Drain(a), b)
    decreases |a|
  {
    match Decode(a)
    case NotYet =>
      assert [] + Drain(a + b).frames == Drain(a + b).frames;
    case Corrupt(_) =>
      DecodeStable(a, b);
    case Got(f, n) =>
      DecodeStable(a, b);
      DrainGot(a, f, n);
      DrainGot(a + b, f, n);
      assert (a + b)[n..] == a[n..] + b;
      DrainSplit(a[n..], b);
      ResumeAfter(f, Drain(a[n..]), b);
  }

  /** Carrying on from `d` when `b` arrives. */
  function Resume(d: Drained, b: seq<Byte>): Drained {
    if d.verdict == Waiting then
      var e := Drain(d.rest + b);
      Drained(d.frames + e.frames, e.rest, e.verdict)
    else
      d.(rest := d.rest + b)
  }

  lemma ResumeAfter(f: Frame, d: Drained, b: seq<Byte>)
    ensures var r := Resume(d, b);
      Resume(d.(frames := [f] + d.frames), b) == r.(frames := [f] + r.frames)
  {
    if d.verdict == Waiting {
      var e := Drain(d.rest + b);
      assert [f] + d.frames + e.frames == [f] + (d.frames + e.frames);
    }
  }

  /** One unfolding of `Drain` at a whole frame. */
  lemma DrainGot(buf: seq<Byte>, f: Frame, n: nat)
    requires Decode(buf) == Got(f, n)
    ensures 0 < n <= |buf|
    ensures var d := Drain(buf[n..]); Drain(buf) == Drained([f] + d.frames, d.rest, d.verdict)
  {
  }

  /** Nothing is lost or invented: the bytes are the encodings of the frames, and then the rest. */
  lemma {:induction false} DrainKeepsEveryByte(buf: seq<Byte>)
    ensures var d := Drain(buf);
      && (forall f | f in d.frames :: Sendable(f))
      && buf == EncodeAll(d.frames) + d.rest
      && (d.verdict == Waiting ==> |d.rest| < FRAME_HEADER_BYTES + MAX_FRAME_PAYLOAD_BYTES)
    decreases |buf|
  {
    if Decode(buf).Got? {
      EncodeDecode(buf);
      var Got(f, n) := Decode(buf);
      DrainKeepsEveryByte(buf[n..]);
      DrainGot(buf, f, n);
      FrontKept(buf, f, n, Drain(buf[n..]));
    }
  }

  lemma FrontKept(buf: seq<Byte>, f: Frame, n: nat, d: Drained)
    requires n <= |buf| && Sendable(f) && buf[..n] == Encode(f).bytes && forall g | g in d.frames :: Sendable(g)
    requires buf[n..] == EncodeAll(d.frames) + d.rest
    ensures forall g | g in [f] + d.frames :: Sendable(g)
    ensures buf == EncodeAll([f] + d.frames) + d.rest
  {
    assert ([f] + d.frames)[1..] == d.frames;
    assert buf == buf[..n] + buf[n..];
    assert buf[..n] + (EncodeAll(d.frames) + d.rest) == buf[..n] + EncodeAll(d.frames) + d.rest;
  }

  function EncodeAll(frames: seq<Frame>): seq<Byte>
    requires forall f | f in frames :: Sendable(f)
  {
    if frames == [] then [] else assert frames[0] in frames; Encode(frames[0]).bytes + EncodeAll(frames[1..])
  }

  /** A list of frames comes back exactly, with an empty buffer. */
  lemma {:induction false} DrainEncodeAll(frames: seq<Frame>)
    requires forall f | f in frames :: Sendable(f)
    ensures Drain(EncodeAll(frames)) == Drained(frames, [], Waiting)
  {
    if frames != [] {
      DecodeEncode(frames[0], EncodeAll(frames[1..]), 0);
      var e := Encode(frames[0]).bytes;
      assert EncodeAll(frames)[|e|..] == EncodeAll(frames[1..]);
      DrainEncodeAll(frames[1..]);
    }
  }

  /** So no two lists of frames share an encoding. */
  lemma EncodeAllInjective(a: seq<Frame>, b: seq<Frame>)
    requires (forall f | f in a :: Sendable(f)) && (forall f | f in b :: Sendable(f))
    requires EncodeAll(a) == EncodeAll(b)
    ensures a == b
  {
    DrainEncodeAll(a);
    DrainEncodeAll(b);
  }
}
