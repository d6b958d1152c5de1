/** Two ways the pump can run between the steps of an attach, both begun with nothing in the coalesced buffer. */
module PumpSeams {
  import opened Prelude
  import opened Frames
  import opened Credit
  import opened Pump

  /** A pump nobody watches, and a sink that has been sent nothing. */
  ghost predicate Unwatched(pump: Pump, sink: StreamSink)
    reads pump, pump.ring, pump.Repr(), sink
  {
    && pump.Valid() && pump.sinks == [] && pump.pending == pump.inHand == []
    && sink.Usable() && sink.log == [] && sink.delivered == 0
  }

  /** The replay has been taken, and what is printed next is flushed before the sink joins: it is never sent. */
  method JoinsLate(pump: Pump, sink: StreamSink, chunk: seq<Byte>)
    requires pump.Valid() && pump.sinks == [] && pump.pending == pump.inHand == [] && chunk != []
    requires sink.Usable() && sink.delivered == 0
    modifies pump, pump.ring, sink`before, sink`joined
    ensures pump.Valid() && pump.sinks == [sink] && pump.fed == old(pump.fed) + chunk
    ensures pump.pending == pump.inHand == [] && sink.joined == |pump.fed| && sink.delivered == 0
    ensures sink.log == old(sink.log) && !pump.AtSeam(sink, |old(pump.fed)|)
  {
    pump.Feed(chunk);
    assert pump.Repr() == {};
    pump.FlushAll();
    pump.Join(sink);
  }

  /** The ring is read when it has what the buffer is about to be given: a sink that takes it all is sent it again. */
  method JoinsEarly(pump: Pump, sink: StreamSink, grant: Frame, chunk: seq<Byte>) returns (sent: nat)
    requires Unwatched(pump, sink) && grant.kind == Credit && Sendable(grant) && chunk != []
    requires pump.fed == [] && |chunk| <= pump.ring.capacity && pump.ring.dropped == 0
    modifies pump, pump.ring, sink, sink.frames
    ensures pump.Valid() && pump.sinks == [sink] && pump.fed == chunk == pump.pending && pump.inHand == []
    ensures sent <= |chunk| && sink.before == OutputBytes(sink.log) == chunk[..sent]
    ensures sink.joined == 0 && !pump.AtSeam(sink, |chunk|)
  {
    pump.FeedState(chunk);
    var replay := pump.Snapshot();
    var marked;
    sent, marked := pump.Replay(sink, grant, replay);
    pump.Extend();
    pump.Join(sink);
  }
}
