/** The credit window: its parameters, the daemon's sink and the client's ledger. */
module Credit {
  import opened Prelude
  import opened Frames

  const KIB: int := 1024
  const MIB: int := 1024 * KIB

  datatype CreditWindow = CreditWindow(
    perStreamInitial: U32,
    perStreamMax: U32,
    totalInitial: U32,
    totalMax: U32,
    pendingCap: U32,
    ackBatch: U32,
    chunk: U32
  ) {
    predicate IsCoherent() {
      && perStreamInitial <= perStreamMax
      && totalInitial <= totalMax
      && perStreamInitial <= totalInitial
      && perStreamMax <= totalMax
      && ackBatch <= pendingCap
      && chunk <= pendingCap
      && chunk > 0
    }
  }

  const DEFAULT := CreditWindow(512 * KIB, 2 * MIB, 2 * MIB, 8 * MIB, 256 * KIB, 192 * KIB, 48 * KIB)

  /** Each thing coherence asks is asked: a window that fails it alone is not coherent. */
  lemma EachIsAsked()
    ensures DEFAULT == CreditWindow(524288, 2097152, 2097152, 8388608, 262144, 196608, 49152) && DEFAULT.IsCoherent()
    ensures !DEFAULT.(perStreamInitial := DEFAULT.perStreamMax + 1, totalInitial := DEFAULT.totalMax).IsCoherent()
    ensures !DEFAULT.(totalInitial := DEFAULT.totalMax + 1).IsCoherent()
    ensures !DEFAULT.(perStreamInitial := DEFAULT.perStreamMax, totalInitial := DEFAULT.perStreamMax - 1).IsCoherent()
    ensures !DEFAULT.(perStreamMax := DEFAULT.totalMax + 1).IsCoherent()
    ensures !DEFAULT.(ackBatch := DEFAULT.pendingCap + 1).IsCoherent()
    ensures !DEFAULT.(chunk := DEFAULT.pendingCap + 1).IsCoherent()
    ensures !DEFAULT.(chunk := 0).IsCoherent()
  {
  }

  /** A `StreamId`, as the bare number in the header. */
  type Id = U32

  // ----- The producer: one sink on the daemon -----

  datatype SendOutcome = Sent | WouldBlock | Closed

  /** The bounded queue of encoded frames that every sink of one connection writes into. */
  class Outbox {
    var queue: seq<seq<Byte>>
    var gone: bool
    const capacity: nat

    constructor (capacity: nat)
      ensures queue == [] && !gone && this.capacity == capacity
    {
      queue, gone := [], false;
      this.capacity := capacity;
    }
  }

  /** The allowance after an ack: `bytes` more, up to the ceiling. */
  function Replenished(w: CreditWindow, credit: int, bytes: U32): int {
    Min(credit + bytes, w.perStreamMax)
  }

  /** The output a list of frames carries. */
  function OutputBytes(frames: seq<Frame>): seq<Byte> {
    if frames == [] then []
    else
      var last := frames[|frames| - 1];
      OutputBytes(frames[..|frames| - 1]) + if last.kind == Output then last.payload else []
  }

  class StreamSink {
    const streamId: Id
    const window: CreditWindow
    const frames: Outbox
    var credit: int
    var closed: bool
    var delivered: nat

    /** Every frame this sink has put on the wire. */
    ghost var log: seq<Frame>

    /** The output it had carried when its session's pump took it on, and how far the session had got. */
    ghost var before: seq<Byte>
    ghost var joined: nat

    constructor (streamId: Id, frames: Outbox, window: CreditWindow)
      ensures this.streamId == streamId && this.frames == frames && this.window == window
      ensures credit == window.perStreamInitial && !closed && delivered == 0 && log == []
      ensures InRange()
    {
      this.streamId, this.frames, this.window := streamId, frames, window;
      credit, closed, delivered, log := window.perStreamInitial, false, 0, [];
    }

    /** What the atomic `i64` holds: one frame may overshoot, and acks saturate at a `u32`. */
    ghost predicate InRange()
      reads this
    {
      -MAX_FRAME_PAYLOAD_BYTES < credit <= U32_MAX
    }

    predicate IsBlocked()
      reads this
    {
      credit <= 0
    }

    predicate IsClosed()
      reads this, frames
    {
      closed || frames.gone
    }

    method Close()
      modifies this`closed
      ensures closed
    {
      closed := true;
    }

    method Replenish(bytes: U32)
      requires InRange()
      modifies this`credit
      ensures credit == Replenished(window, old(credit), bytes) <= window.perStreamMax
      ensures old(credit) + bytes <= window.perStreamMax ==> credit == old(credit) + bytes
      ensures old(credit) + bytes > window.perStreamMax ==> credit == window.perStreamMax
      ensures InRange()
    {
      credit := Min(credit + bytes, window.perStreamMax);
    }

    method SetDelivered(bytes: nat)
      modifies this`delivered
      ensures delivered == bytes
    {
      delivered := bytes;
    }

    /**
      * Send `frame`, spending allowance for the payload of an output frame and for nothing else. A
      * frame that does not encode is dropped and reported as sent.
      */
    method Send(frame: Frame) returns (outcome: SendOutcome)
      requires InRange()
      modifies this`credit, this`closed, this`log, frames`queue
      ensures InRange()
      ensures outcome == Closed <==> old(IsClosed())
      ensures outcome == WouldBlock <==>
              !old(IsClosed()) && ((frame.kind == Output && old(credit) <= 0)
                                   || (Sendable(frame) && frames.capacity <= |old(frames.queue)|))
      ensures outcome == Sent && Sendable(frame) ==>
              frames.queue == old(frames.queue) + [Encode(frame).bytes]
              && credit == old(credit) - (if frame.kind == Output then |frame.payload| else 0)
              && log == old(log) + [frame]
      ensures outcome != Sent || !Sendable(frame) ==>
              frames.queue == old(frames.queue) && credit == old(credit) && log == old(log)
      ensures closed ==> old(IsClosed())
      ensures old(closed) ==> closed
    {
      if IsClosed() {
        return Closed;
      }
      var spends := frame.kind == Output;
      if spends && IsBlocked() {
        return WouldBlock;
      }
      var cost := |frame.payload|;
      match Encode(frame)
      case Refused(_) =>
        return Sent;
      case Encoded(encoded) =>
        if frames.capacity <= |frames.queue| {
          return WouldBlock;
        }
        frames.queue := frames.queue + [encoded];
        log := log + [frame];
        if spends {
          credit := credit - cost;
        }
        return Sent;
    }

    /** A sink as the registry makes one: a real id, and a chunk the wire can carry. */
    ghost predicate Usable()
      reads this
    {
      InRange() && streamId != RESERVED && 0 < window.chunk <= MAX_FRAME_PAYLOAD_BYTES
    }

    /** What has been put on the wire since is output in chunks, and only the last of all, `over`, may be a short one. */
    ghost predicate InChunks(since: nat, over: bool)
      reads this
    {
      forall i :: since <= i < |log| ==>
        && log[i].kind == Output && log[i].stream == streamId && 0 < |log[i].payload| <= window.chunk
        && (|log[i].payload| < window.chunk ==> over && i == |log| - 1)
    }

    /**
      * Send `bytes` from `from` on, a chunk at a time, until the end or until the sink will take no more.
      * What goes on the wire is output, and it is exactly `bytes[from..done]`.
      */
    method SendFrom(bytes: seq<Byte>, from: nat) returns (done: nat)
      requires Usable() && from <= |bytes|
      modifies this`credit, this`closed, this`log, frames`queue
      ensures Usable() && IsClosed() == old(IsClosed())
      ensures from <= done <= |bytes|
      ensures old(log) <= log && InChunks(|old(log)|, done == |bytes|)
      ensures OutputBytes(log) == OutputBytes(old(log)) + bytes[from..done]
      ensures old(frames.queue) <= frames.queue
      ensures done < |bytes| ==> IsClosed() || IsBlocked() || frames.capacity <= |frames.queue|
      ensures old(IsClosed()) || frames.capacity <= |old(frames.queue)| ==> log == old(log)
    {
      done := from;
      while done < |bytes|
        invariant Usable() && IsClosed() == old(IsClosed()) && from <= done <= |bytes|
        invariant old(log) <= log && InChunks(|old(log)|, done == |bytes|)
        invariant OutputBytes(log) == OutputBytes(old(log)) + bytes[from..done]
        invariant old(frames.queue) <= frames.queue
        invariant old(IsClosed()) || frames.capacity <= |old(frames.queue)| ==> log == old(log)
        decreases |bytes| - done
      {
        var end := SendChunk(bytes, done, |old(log)|);
        if end == done {
          return;
        }
        Slices(bytes, from, done, end);
        done := end;
      }
    }

    /** The next chunk of `bytes`, or nothing when the sink will not take it. */
    method SendChunk(bytes: seq<Byte>, done: nat, ghost since: nat) returns (end: nat)
      requires Usable() && done < |bytes| && since <= |log| && InChunks(since, false)
      modifies this`credit, this`closed, this`log, frames`queue
      ensures Usable() && IsClosed() == old(IsClosed())
      ensures done <= end <= |bytes|
      ensures old(log) <= log && InChunks(since, end == |bytes|)
      ensures OutputBytes(log) == OutputBytes(old(log)) + bytes[done..end]
      ensures old(frames.queue) <= frames.queue
      ensures end == done ==> IsClosed() || IsBlocked() || frames.capacity <= |frames.queue|
      ensures end == done || old(IsClosed()) || frames.capacity <= |old(frames.queue)| ==> log == old(log)
    {
      end := Min(|bytes|, done + window.chunk);
      var frame := Frame(Output, streamId, bytes[done..end]);
      OutputBytesSnoc(log, frame);
      var outcome := Send(frame);
      if outcome != Sent {
        end := done;
      }
    }

    /** The pump's offer: carry on from where this sink had got to in the coalesced buffer. */
    method Offer(pending: seq<Byte>)
      requires Usable() && delivered <= |pending| && !IsClosed()
      modifies this`credit, this`closed, this`log, this`delivered, frames`queue
      ensures Usable() && !IsClosed()
      ensures old(delivered) <= delivered <= |pending|
      ensures OutputBytes(log) == OutputBytes(old(log)) + pending[old(delivered)..delivered]
      ensures old(log) <= log && InChunks(|old(log)|, delivered == |pending|)
      ensures old(frames.queue) <= frames.queue
      ensures delivered < |pending| ==> IsBlocked() || frames.capacity <= |frames.queue|
    {
      var done := SendFrom(pending, delivered);
      SetDelivered(done);
    }

    /**
      * The wire half of an attach: the opening grant, as much of the replay as the allowance takes, and
      * then the boundary, once, whether or not the replay was cut short. Only a full queue or a client
      * that has gone can lose the boundary.
      */
    method Replay(grant: Frame, replay: seq<Byte>) returns (sent: nat, marked: bool)
      requires Usable() && grant.kind == Credit && Sendable(grant)
      modifies this`credit, this`closed, this`log, frames`queue
      ensures Usable() && IsClosed() == old(IsClosed()) && sent <= |replay|
      ensures OutputBytes(log) == OutputBytes(old(log)) + replay[..sent]
      ensures sent < |replay| ==> IsClosed() || IsBlocked() || frames.capacity <= |frames.queue|
      ensures old(log) <= log && old(frames.queue) <= frames.queue
      ensures log == old(log) ==> IsClosed() || frames.capacity <= |frames.queue|
      ensures log != old(log) ==> |old(log)| < |log| && log[|old(log)|] == grant
      ensures marked ==> |old(log)| < |log| && log[|log| - 1] == Frame(ReplayEnd, streamId, [])
      ensures forall i :: |old(log)| <= i < |log| && log[i].kind == Output ==> |log[i].payload| <= window.chunk
      ensures forall i :: |old(log)| <= i < |log| - (if marked then 1 else 0) ==> log[i].kind != ReplayEnd
      ensures !marked ==> IsClosed() || frames.capacity <= |frames.queue|
    {
      sent := Open(grant, replay);
      ghost var began := log;
      marked := Put(Frame(ReplayEnd, streamId, []));
      assert log == began + if marked then [Frame(ReplayEnd, streamId, [])] else [];
    }

    /** The opening grant, and as much of the replay as the allowance takes. */
    method Open(grant: Frame, replay: seq<Byte>) returns (sent: nat)
      requires Usable() && grant.kind == Credit && Sendable(grant)
      modifies this`credit, this`closed, this`log, frames`queue
      ensures Usable() && IsClosed() == old(IsClosed()) && sent <= |replay|
      ensures OutputBytes(log) == OutputBytes(old(log)) + replay[..sent]
      ensures sent < |replay| ==> IsClosed() || IsBlocked() || frames.capacity <= |frames.queue|
      ensures old(log) <= log && old(frames.queue) <= frames.queue
      ensures log == old(log) ==> IsClosed() || frames.capacity <= |frames.queue|
      ensures log != old(log) ==> |old(log)| < |log| && log[|old(log)|] == grant
      ensures forall i :: |old(log)| <= i < |log| ==> log[i].kind != ReplayEnd
      ensures forall i :: |old(log)| <= i < |log| && log[i].kind == Output ==> |log[i].payload| <= window.chunk
    {
      var granted := Put(grant);
      ghost var first := log;
      assert first == old(log) + if granted then [grant] else [];
      sent := SendFrom(replay, 0);
      assert replay[0..sent] == replay[..sent];
      forall i | |old(log)| <= i < |log|
        ensures log[i].kind != ReplayEnd && (log[i].kind == Output ==> |log[i].payload| <= window.chunk)
      {
        if i < |first| {
          assert log[i] == first[i] == grant;
        }
      }
    }

    /** A frame that is not output spends nothing, so no allowance can hold it back. */
    method Put(frame: Frame) returns (put: bool)
      requires Usable() && frame.kind != Output && Sendable(frame)
      modifies this`credit, this`closed, this`log, frames`queue
      ensures Usable() && IsClosed() == old(IsClosed()) && credit == old(credit)
      ensures log == old(log) + if put then [frame] else []
      ensures OutputBytes(log) == OutputBytes(old(log))
      ensures put <==> !old(IsClosed()) && |old(frames.queue)| < frames.capacity
      ensures old(frames.queue) <= frames.queue
    {
      OutputBytesSnoc(log, frame);
      var outcome := Send(frame);
      put := outcome == Sent;
    }
  }

  lemma OutputBytesSnoc(frames: seq<Frame>, f: Frame)
    ensures OutputBytes(frames + [f]) == OutputBytes(frames) + if f.kind == Output then f.payload else []
  {
    assert (frames + [f])[..|frames|] == frames;
  }

  // ----- The consumer: the window's ledger -----

  datatype StreamCredit = StreamCredit(credit: U32, unrendered: U32, ungranted: U32)

  datatype CreditError =
    | Overrun(stream: Id, sent: U32, credit: U32)
    | PhantomAck(stream: Id, acked: U32, unrendered: U32)
    | UnknownStream(stream: Id)

  datatype Ledger = Ledger(
    window: CreditWindow,
    streams: map<Id, StreamCredit>,
    totalCredit: U32,
    totalUngranted: U32
  ) {
    /** What a stream may still receive: the smaller of its own credit and the shared budget. */
    function Available(s: Id): U32 {
      if s in streams then Min(streams[s].credit, totalCredit) else 0
    }

    /** No attached stream can take another chunk, so the reader stops reading. */
    predicate IsBlocked() {
      streams != map[]
      && (totalCredit < window.chunk || forall s :: s in streams ==> Available(s) < window.chunk)
    }

    function Attach(s: Id): Ledger {
      if s in streams then this
      else this.(streams := streams[s := StreamCredit(window.perStreamInitial, 0, 0)])
    }

    function Detach(s: Id): Ledger {
      if s in streams then
        this.(streams := streams - {s},
              totalCredit := Min(SaturatingAdd(totalCredit, streams[s].unrendered), window.totalMax))
      else this
    }

    /** Why output of `n` bytes on `s` is refused, if it is. */
    function Refusal(s: Id, n: U32): Option<CreditError> {
      if s !in streams then Some(UnknownStream(s))
      else if n > Available(s) then Some(Overrun(s, n, Available(s)))
      else None
    }

    function Receive(s: Id, n: U32): Ledger
      requires Refusal(s, n).None?
    {
      var e := streams[s];
      this.(streams := streams[s := e.(credit := e.credit - n, unrendered := SaturatingAdd(e.unrendered, n))],
            totalCredit := totalCredit - n)
    }

    /** Why a render report of `n` bytes on `s` is refused, if it is. */
    function Phantom(s: Id, n: U32): Option<CreditError> {
      if s !in streams then Some(UnknownStream(s))
      else if n > streams[s].unrendered then Some(PhantomAck(s, n, streams[s].unrendered))
      else None
    }

    /** The books after a render report, before any ack is drained. */
    function Paint(s: Id, n: U32): Ledger
      requires Phantom(s, n).None?
    {
      var e := streams[s];
      this.(streams := streams[s := e.(unrendered := e.unrendered - n, ungranted := SaturatingAdd(e.ungranted, n))],
            totalUngranted := SaturatingAdd(totalUngranted, n))
    }

    /** Whether a stream has rendered enough to be acked without being asked. */
    predicate BatchFull(s: Id)
      requires s in streams
    {
      streams[s].ungranted >= window.ackBatch
    }

    predicate Owing(s: Id) {
      s in streams && streams[s].ungranted > 0
    }

    /** The bytes a drain of `s` acknowledges. */
    function AckBytes(s: Id): U32
      requires s in streams
    {
      Min(streams[s].ungranted, window.perStreamMax - Min(streams[s].credit, window.perStreamMax))
    }

    /** Every ack the reader would send if it flushed now. */
    function AcksOwed(): map<Id, U32> {
      AcksFor(streams.Keys)
    }

    function AcksFor(ids: set<Id>): map<Id, U32> {
      map s | s in ids && Owing(s) && AckBytes(s) > 0 :: AckBytes(s)
    }

    /** The books after a drain: this stream's batch, and everything owed to the shared budget. */
    function Drain(s: Id): Ledger
      requires Owing(s)
    {
      var e := streams[s];
      var shared := Min(totalUngranted, window.totalMax - Min(totalCredit, window.totalMax));
      this.(streams := streams[s := e.(ungranted := 0,
                                       credit := Min(SaturatingAdd(e.credit, AckBytes(s)), window.perStreamMax))],
            totalCredit := Min(SaturatingAdd(totalCredit, shared), window.totalMax),
            totalUngranted := 0)
    }
  }

  /** The ledger the reader thread keeps, field by field. */
  class CreditLedger {
    var window: CreditWindow
    var streams: map<Id, StreamCredit>
    var totalCredit: U32
    var totalUngranted: U32

    ghost function View(): Ledger
      reads this
    {
      Ledger(window, streams, totalCredit, totalUngranted)
    }

    constructor (window: CreditWindow)
      ensures View() == Ledger(window, map[], window.totalInitial, 0)
    {
      this.window := window;
      streams, totalCredit, totalUngranted := map[], window.totalInitial, 0;
    }

    /** An incoherent window is ignored, and the one in force stays in force. */
    method Adopt(w: CreditWindow) returns (adopted: bool)
      modifies this`window
      ensures adopted == w.IsCoherent()
      ensures View() == old(View()).(window := if adopted then w else old(window))
    {
      if !w.IsCoherent() {
        return false;
      }
      window := w;
      return true;
    }

    method Attach(s: Id)
      modifies this`streams
      ensures View() == old(View()).Attach(s)
    {
      if s !in streams {
        streams := streams[s := StreamCredit(window.perStreamInitial, 0, 0)];
      }
    }

    method Detach(s: Id)
      modifies this
      ensures View() == old(View()).Detach(s)
    {
      if s in streams {
        var closed := streams[s];
        streams := streams - {s};
        totalCredit := Min(SaturatingAdd(totalCredit, closed.unrendered), window.totalMax);
      }
    }

    method Receive(s: Id, n: U32) returns (refused: Option<CreditError>)
      modifies this
      ensures refused == old(View()).Refusal(s, n)
      ensures refused == if s !in old(streams) then Some(UnknownStream(s))
                         else if n <= old(streams)[s].credit && n <= old(totalCredit) then None
                         else Some(Overrun(s, n, Min(old(streams)[s].credit, old(totalCredit))))
      ensures View() == if refused.None? then old(View()).Receive(s, n) else old(View())
    {
      if s !in streams {
        return Some(UnknownStream(s));
      }
      var entry := streams[s];
      var credit := Min(entry.credit, totalCredit);
      if n > credit {
        return Some(Overrun(s, n, credit));
      }
      streams := streams[s := entry.(credit := entry.credit - n, unrendered := SaturatingAdd(entry.unrendered, n))];
      totalCredit := totalCredit - n;
      return None;
    }

    /** Record a render report, and drain the stream when its batch is full. */
    method Render(s: Id, n: U32) returns (refused: Option<CreditError>, ack: Option<U32>)
      modifies this
      ensures refused == old(View()).Phantom(s, n)
      ensures refused == if s !in old(streams) then Some(UnknownStream(s))
                         else if n <= old(streams)[s].unrendered then None
                         else Some(PhantomAck(s, n, old(streams)[s].unrendered))
      ensures refused.Some? ==> View() == old(View()) && ack == None
      ensures refused.None? ==>
        var painted := old(View()).Paint(s, n);
        if painted.BatchFull(s) && painted.Owing(s) then
          View() == painted.Drain(s) && ack == AckOf(painted.AckBytes(s))
        else
          View() == painted && ack == None
    {
      ack := None;
      if s !in streams {
        return Some(UnknownStream(s)), ack;
      }
      var entry := streams[s];
      if n > entry.unrendered {
        return Some(PhantomAck(s, n, entry.unrendered)), ack;
      }
      streams := streams[s := entry.(unrendered := entry.unrendered - n, ungranted := SaturatingAdd(entry.ungranted, n))];
      totalUngranted := SaturatingAdd(totalUngranted, n);
      if streams[s].ungranted >= window.ackBatch {
        ack := DrainAck(s);
      }
      return None, ack;
    }

    method DrainAck(s: Id) returns (ack: Option<U32>)
      modifies this
      ensures if old(View()).Owing(s)
              then View() == old(View()).Drain(s) && ack == AckOf(old(View()).AckBytes(s))
              else View() == old(View()) && ack == None
    {
      if s !in streams || streams[s].ungranted == 0 {
        return None;
      }
      var entry := streams[s];
      var headroom := window.perStreamMax - Min(entry.credit, window.perStreamMax);
      var bytes := Min(entry.ungranted, headroom);
      streams := streams[s := entry.(ungranted := 0,
                                     credit := Min(SaturatingAdd(entry.credit, bytes), window.perStreamMax))];
      var shared := Min(totalUngranted, window.totalMax - Min(totalCredit, window.totalMax));
      totalCredit := Min(SaturatingAdd(totalCredit, shared), window.totalMax);
      totalUngranted := 0;
      return AckOf(bytes);
    }

    /**
      * The reader's pass over every stream that owes an ack, in no particular order: one ack each,
      * and afterwards nothing is owed, to a stream or to the shared budget.
      */
    method FlushAcks() returns (acks: map<Id, U32>)
      modifies this
      ensures acks == old(View()).AcksOwed()
      ensures window == old(window) && streams.Keys == old(streams.Keys)
      ensures forall s :: s in streams ==> streams[s].ungranted == 0
                                           && streams[s].unrendered == old(streams)[s].unrendered
      ensures (forall s :: !old(View()).Owing(s)) ==> View() == old(View())
      ensures (exists s :: old(View()).Owing(s)) ==> totalUngranted == 0
    {
      ghost var before := View();
      acks := map[];
      var owing := set s | s in streams && streams[s].ungranted > 0;
      ghost var first := owing;
      while owing != {}
        invariant FlushedBut(before, View(), first, owing)
        invariant acks == before.AcksFor(first - owing)
      {
        var s :| s in owing;
        FlushedMore(before, View(), first, owing, s);
        AcksMore(before, first - owing, s);
        assert first - (owing - {s}) == first - owing + {s};
        var ack := DrainAck(s);
        if ack.Some? {
          acks := acks[s := ack.value];
        }
        owing := owing - {s};
      }
      assert first - {} == first && before.AcksFor(first) == before.AcksOwed();
    }
  }

  /** What a flush has done when the streams in `owing`, of those that owed at first, are still to be drained. */
  ghost predicate FlushedBut(before: Ledger, now: Ledger, first: set<Id>, owing: set<Id>) {
    && (forall s :: s in first <==> before.Owing(s)) && owing <= first
    && now.window == before.window && now.streams.Keys == before.streams.Keys
    && (forall s :: s in now.streams ==> now.streams[s].unrendered == before.streams[s].unrendered)
    && (forall s :: s in now.streams && s !in owing ==> now.streams[s].ungranted == 0)
    && (forall s :: s in owing ==> now.streams[s] == before.streams[s])
    && (if owing == first then now == before else now.totalUngranted == 0)
  }

  lemma FlushedMore(before: Ledger, now: Ledger, first: set<Id>, owing: set<Id>, s: Id)
    requires FlushedBut(before, now, first, owing) && s in owing
    ensures now.Owing(s) && now.AckBytes(s) == before.AckBytes(s)
    ensures FlushedBut(before, now.Drain(s), first, owing - {s})
  {
  }

  lemma AcksMore(before: Ledger, drained: set<Id>, s: Id)
    requires before.Owing(s) && s !in drained
    ensures before.AcksFor(drained + {s}) ==
            (var acks := before.AcksFor(drained); if before.AckBytes(s) == 0 then acks else acks[s := before.AckBytes(s)])
  {
  }

  /** An ack of nothing is not sent. */
  function AckOf(bytes: U32): Option<U32> {
    if bytes == 0 then None else Some(bytes)
  }
}
