/** One session's output, coalesced once and written to every stream that watches it. */
module Pump {
  import opened Prelude
  import opened Frames
  import opened Credit
  import opened ReplayRing

  /** What the pump's thread may do while another attaches. */
  datatype Act = Feeds(chunk: seq<Byte>) | Extends | Flushes

  class Pump {
    var sinks: seq<StreamSink>
    var pending: seq<Byte>

    /** The chunk the terminal state has been fed and `pending` has not been given yet. */
    var inHand: seq<Byte>

    /** The terminal state's replay ring. */
    const ring: Ring

    /** Everything the session has printed, and how much of it has left `pending`. */
    ghost var fed: seq<Byte>
    ghost var gone: nat

    /** The sinks and the queues they write into. */
    ghost function Repr(): set<object>
      reads this
    {
      (set s: StreamSink | s in sinks :: s as object) + (set s: StreamSink | s in sinks :: s.frames as object)
    }

    /** The queues alone. */
    ghost function Boxes(): set<Outbox>
      reads this
    {
      set s: StreamSink | s in sinks :: s.frames
    }

    ghost predicate Valid()
      reads this, ring, Repr()
    {
      && Books()
      && (forall i, j :: 0 <= i < j < |sinks| ==> sinks[i] != sinks[j])
      && (forall s :: s in sinks ==> s.Usable())
      && (forall s :: s in sinks && !s.IsClosed() ==> InStep(s))
    }

    /** Where everything that was printed is. */
    ghost predicate Books()
      reads this, ring
    {
      && ring.Valid() && ring.pushed == fed
      && gone + |pending| + |inHand| == |fed|
      && pending == fed[gone..gone + |pending|] && inHand == fed[gone + |pending|..]
    }

    /** The sink has been sent the session's bytes from where it joined, each once and in order. */
    ghost predicate InStep(s: StreamSink)
      reads this, s
    {
      && s.joined <= gone + s.delivered <= gone + |pending| <= |fed|
      && OutputBytes(s.log) == s.before + fed[s.joined..gone + s.delivered]
    }

    constructor (capacity: nat)
      ensures Valid() && sinks == [] && fed == [] && gone == 0 && inHand == []
      ensures fresh(ring) && ring.capacity == capacity && ring.dropped == 0
    {
      sinks, pending, inHand := [], [], [];
      ring := new Ring(capacity);
      fed, gone := [], 0;
    }

    /** The pump read `chunk` from the pty: the terminal state, and so the ring, has it first. */
    method FeedState(chunk: seq<Byte>)
      requires Valid() && inHand == []
      modifies this`fed, this`inHand, ring
      ensures Valid() && fed == old(fed) + chunk && inHand == chunk
      ensures old(|ring.bytes|) + |chunk| <= ring.capacity ==> ring.dropped == old(ring.dropped)
    {
      ring.Push(chunk);
      fed := fed + chunk;
      inHand := chunk;
      forall s | s in sinks && !s.IsClosed() ensures InStep(s) {
        assert old(InStep(s));
        assert fed[s.joined..gone + s.delivered] == old(fed)[s.joined..gone + s.delivered];
      }
    }

    /** And then the coalesced buffer does. */
    method Extend()
      requires Valid()
      modifies this`pending, this`inHand
      ensures Valid() && inHand == [] && pending == old(pending) + old(inHand)
    {
      pending := pending + inHand;
      inHand := [];
      forall s | s in sinks && !s.IsClosed() ensures InStep(s) {
        assert old(InStep(s));
      }
    }

    method Feed(chunk: seq<Byte>)
      requires Valid() && inHand == []
      modifies this`pending, this`inHand, this`fed, ring
      ensures Valid() && fed == old(fed) + chunk && pending == old(pending) + chunk && inHand == []
    {
      FeedState(chunk);
      Extend();
    }

    /** The first step of an attach, under the terminal state's lock and no other. */
    method Snapshot() returns (replay: seq<Byte>)
      requires Valid()
      ensures |replay| <= |fed| && replay == fed[|fed| - |replay|..] && |replay| <= ring.capacity
      ensures replay == ring.bytes && (ring.dropped == 0 ==> replay == fed)
    {
      replay := ring.bytes;
    }

    /** The last step of an attach: a sink that has had its replay starts at the head of `pending`. */
    method Join(sink: StreamSink)
      requires Valid() && sink !in sinks && sink.Usable() && sink.delivered == 0
      modifies this`sinks, sink`before, sink`joined
      ensures Valid() && sinks == old(sinks) + [sink]
      ensures sink.joined == gone && sink.before == OutputBytes(sink.log)
    {
      sinks := sinks + [sink];
      sink.joined, sink.before := gone, OutputBytes(sink.log);
      forall s | s in sinks && !s.IsClosed() ensures InStep(s) {
        assert s != sink ==> old(InStep(s));
        assert fed[gone..gone + 0] == [];
      }
    }

    /** Whatever the pump's thread does meanwhile. */
    method Run(acts: seq<Act>)
      requires Valid()
      modifies this`sinks, this`pending, this`inHand, this`fed, this`gone, Repr(), ring
      ensures Valid() && old(fed) <= fed && old(gone) <= gone
      ensures Repr() <= old(Repr()) && Boxes() <= old(Boxes()) && forall s :: s in sinks ==> s in old(sinks)
      ensures acts == [] ==> unchanged(this) && unchanged(ring)
      ensures forall s :: s in old(sinks) && !old(s.IsClosed()) ==> s in sinks && !s.IsClosed()
      ensures forall o :: o in old(Boxes()) ==> old(o.queue) <= o.queue && o.gone == old(o.gone)
    {
      for i := 0 to |acts|
        invariant Valid() && old(fed) <= fed && old(gone) <= gone
        invariant Repr() <= old(Repr()) && Boxes() <= old(Boxes()) && forall s :: s in sinks ==> s in old(sinks)
        invariant forall s :: s in old(sinks) && !old(s.IsClosed()) ==> s in sinks && !s.IsClosed()
        invariant forall o :: o in old(Boxes()) ==> old(o.queue) <= o.queue && o.gone == old(o.gone)
        invariant i == 0 ==> unchanged(this) && unchanged(ring)
      {
        Does(acts[i]);
      }
    }

    /** One thing it does. */
    method Does(act: Act)
      requires Valid()
      modifies this`sinks, this`pending, this`inHand, this`fed, this`gone, Repr(), ring
      ensures Valid() && old(gone) <= gone
      ensures fed == old(fed) + if act.Feeds? && old(inHand) == [] then act.chunk else []
      ensures inHand == if act.Extends? then [] else if act.Feeds? && old(inHand) == [] then act.chunk else old(inHand)
      ensures act.Extends? ==> pending == old(pending + inHand) && sinks == old(sinks)
      ensures act.Feeds? ==> pending == old(pending) && sinks == old(sinks)
      ensures act.Flushes? ==> gone + |pending| == old(gone + |pending|)
      ensures act.Flushes? && old(pending) != [] ==> forall s :: s in sinks ==> !s.IsClosed() && Satisfied(s)
      ensures Repr() <= old(Repr()) && Boxes() <= old(Boxes()) && forall s :: s in sinks ==> s in old(sinks)
      ensures forall s :: s in old(sinks) && !old(s.IsClosed()) ==> s in sinks && !s.IsClosed()
      ensures forall o :: o in old(Boxes()) ==> old(o.queue) <= o.queue && o.gone == old(o.gone)
    {
      match act
      case Feeds(chunk) =>
        if inHand == [] {
          FeedState(chunk);
        }
      case Extends => Extend();
      case Flushes => FlushAll();
    }

    /**
      * `OwnedSession::attach`, with the pump running between its steps: what the sink was sent of its replay is what
      * the ring held when it was read, and it joins wherever the pump has got to by then.
      */
    method Attach(sink: StreamSink, grant: Frame, during: seq<Act>, after: seq<Act>) returns (sent: nat, marked: bool)
      requires Valid() && sink !in sinks && sink.Usable() && sink.delivered == 0 && sink.log == []
      requires grant.kind == Credit && Sendable(grant)
      modifies this`sinks, this`pending, this`inHand, this`fed, this`gone, Repr(), ring
      modifies sink`credit, sink`closed, sink`log, sink`before, sink`joined, sink.frames`queue
      ensures Valid() && sink in sinks && old(fed) <= fed
      ensures forall s :: s in old(sinks) && !old(s.IsClosed()) ==> s in sinks && !s.IsClosed()
      ensures sent <= |old(ring.bytes)| && sink.before == OutputBytes(sink.log) == old(ring.bytes)[..sent]
      ensures sent < |old(ring.bytes)| ==> sink.IsClosed() || sink.IsBlocked() || Full(sink)
      ensures Greeted(sink, grant, marked)
      ensures sink.joined == gone >= old(gone)
      ensures during == after == [] ==> (AtSeam(sink, |old(fed)|) <==> old(pending) == [] && old(inHand) == [])
    {
      Quiet();
      var replay := Snapshot();
      sent, marked := ReplayAndJoin(sink, grant, replay, during, after);
    }

    /** The buffer starts where the session has got to exactly when there is nothing in it or on the way to it. */
    lemma Quiet()
      requires Valid()
      ensures gone == |fed| <==> pending == [] && inHand == []
    {
    }

    /** What the ring holds is the end of what the session has printed, and so it is still after more is. */
    lemma TheEnd(from: nat, more: seq<Byte>)
      requires Valid() && from == |fed| - |ring.bytes|
      ensures |ring.bytes| <= ring.capacity && ring.bytes == (fed + more)[from..|fed|]
    {
      assert ring.bytes == fed[from..];
    }

    method ReplayAndJoin(sink: StreamSink, grant: Frame, replay: seq<Byte>, during: seq<Act>, after: seq<Act>)
      returns (sent: nat, marked: bool)
      requires Valid() && sink !in sinks && sink.Usable() && sink.delivered == 0 && sink.log == []
      requires grant.kind == Credit && Sendable(grant)
      modifies this`sinks, this`pending, this`inHand, this`fed, this`gone, Repr(), ring
      modifies sink`credit, sink`closed, sink`log, sink`before, sink`joined, sink.frames`queue
      ensures Valid() && sink in sinks && old(fed) <= fed && old(gone) <= gone == sink.joined
      ensures forall s :: s in old(sinks) && !old(s.IsClosed()) ==> s in sinks && !s.IsClosed()
      ensures sent <= |replay| && sink.before == OutputBytes(sink.log) == replay[..sent]
      ensures sent < |replay| ==> sink.IsClosed() || sink.IsBlocked() || Full(sink)
      ensures Greeted(sink, grant, marked)
      ensures during == after == [] ==> gone == old(gone)
    {
      sent, marked := SendReplay(sink, grant, replay, during, after);
      Join(sink);
    }

    method SendReplay(sink: StreamSink, grant: Frame, replay: seq<Byte>, during: seq<Act>, after: seq<Act>)
      returns (sent: nat, marked: bool)
      requires Valid() && sink !in sinks && sink.Usable() && sink.delivered == 0 && sink.log == []
      requires grant.kind == Credit && Sendable(grant)
      modifies this`sinks, this`pending, this`inHand, this`fed, this`gone, Repr(), ring
      modifies sink`credit, sink`closed, sink`log, sink.frames`queue
      ensures Valid() && sink !in sinks && sink.Usable() && sink.delivered == 0
      ensures old(fed) <= fed && old(gone) <= gone
      ensures forall s :: s in old(sinks) && !old(s.IsClosed()) ==> s in sinks && !s.IsClosed()
      ensures sent <= |replay| && OutputBytes(sink.log) == replay[..sent]
      ensures sent < |replay| ==> sink.IsClosed() || sink.IsBlocked() || Full(sink)
      ensures Greeted(sink, grant, marked)
      ensures during == after == [] ==> unchanged(this)
    {
      Run(during);
      sent, marked := Replay(sink, grant, replay);
      Run(after);
    }

    predicate Full(s: StreamSink)
      reads s, s.frames
    {
      s.frames.capacity <= |s.frames.queue|
    }

    /**
      * What an attach has put on the wire: the grant and nothing before it, and the boundary once, at the end, if
      * `marked`. Only a full queue or a client that has gone can have lost either.
      */
    ghost predicate Greeted(s: StreamSink, grant: Frame, marked: bool)
      reads s, s.frames
    {
      && (if s.log == [] then s.IsClosed() || Full(s) else s.log[0] == grant)
      && (if marked then s.log != [] && s.log[|s.log| - 1] == Frame(ReplayEnd, s.streamId, []) else s.IsClosed() || Full(s))
      && forall i :: 0 <= i < |s.log| - (if marked then 1 else 0) ==> s.log[i].kind != ReplayEnd
    }

    /** The wire half: it writes to the sink and its queue, and touches nothing of the pump's. */
    method Replay(sink: StreamSink, grant: Frame, replay: seq<Byte>) returns (sent: nat, marked: bool)
      requires Valid() && sink !in sinks && sink.Usable() && sink.log == []
      requires grant.kind == Credit && Sendable(grant)
      modifies sink`credit, sink`closed, sink`log, sink.frames`queue
      ensures Valid() && sink.Usable() && sent <= |replay| && OutputBytes(sink.log) == replay[..sent]
      ensures sent < |replay| ==> sink.IsClosed() || sink.IsBlocked() || Full(sink)
      ensures Greeted(sink, grant, marked)
    {
      sent, marked := sink.Replay(grant, replay);
      assert OutputBytes([]) + replay[..sent] == replay[..sent];
      forall s | s in sinks && !s.IsClosed() ensures InStep(s) {
        assert old(InStep(s));
      }
    }

    /** The sink joined exactly where the session had got to when its replay was taken. */
    ghost predicate AtSeam(s: StreamSink, snap: nat)
      reads s
    {
      s.joined == snap
    }

    /**
      * What a seam is worth, for a sink that took the whole of its replay: the pane shows the end of the session from
      * where the ring began, every byte once, for ever. A sink that joined early shows what lies between twice, and
      * one that joined late never shows it.
      */
    lemma SeamExactly(s: StreamSink, from: nat, snap: nat)
      requires Valid() && s in sinks && !s.IsClosed()
      requires from <= snap <= |fed| && s.before == fed[from..snap]
      ensures var end := gone + s.delivered;
        && (from <= end && OutputBytes(s.log) == fed[from..end] <==> AtSeam(s, snap))
        && (s.joined < snap <= end ==>
              OutputBytes(s.log) == fed[from..snap] + fed[s.joined..snap] + fed[snap..end])
        && (snap < s.joined ==>
              OutputBytes(s.log) == fed[from..snap] + fed[s.joined..end]
              && fed[from..end] == fed[from..snap] + fed[snap..s.joined] + fed[s.joined..end])
    {
      assert InStep(s);
      var end := gone + s.delivered;
      if s.joined == snap {
        Slices(fed, from, snap, end);
      } else if s.joined < snap <= end {
        Slices(fed, s.joined, snap, end);
        assert fed[from..snap] + (fed[s.joined..snap] + fed[snap..end]) == OutputBytes(s.log);
      } else if snap < s.joined {
        Slices(fed, from, snap, s.joined);
        Slices(fed, from, s.joined, end);
      }
      assert |OutputBytes(s.log)| == (snap - from) + (end - s.joined);
    }

    /** Drop the sinks that have closed. */
    method Retain()
      requires Valid()
      modifies this`sinks
      ensures Valid() && Repr() <= old(Repr()) && Boxes() <= old(Boxes()) && |sinks| <= |old(sinks)|
      ensures forall s :: s in sinks <==> s in old(sinks) && !s.IsClosed()
    {
      var open := [];
      for i := 0 to |sinks|
        invariant |open| <= i
        invariant forall s :: s in open <==> s in sinks[..i] && !s.IsClosed()
        invariant forall a, b :: 0 <= a < b < |open| ==> open[a] != open[b]
      {
        if !sinks[i].IsClosed() {
          open := open + [sinks[i]];
        }
      }
      assert sinks[..|sinks|] == sinks;
      sinks := open;
    }

    /**
      * `flush_all`. Afterwards every open sink has had all of the buffer or can take no more of it, what was
      * dropped from the buffer is what the slowest of them has had, and with nobody watching it is all gone.
      */
    method FlushAll()
      requires Valid()
      modifies this`sinks, this`pending, this`gone, Repr()
      ensures Valid() && Repr() <= old(Repr()) && |sinks| <= |old(sinks)|
      ensures old(gone) <= gone && gone + |pending| == old(gone + |pending|)
      ensures old(pending) == [] ==> unchanged(this)
      ensures old(pending) != [] ==> forall s :: s in sinks <==> s in old(sinks) && !old(s.IsClosed())
      ensures old(pending) != [] ==> forall s :: s in sinks ==> !s.IsClosed() && Satisfied(s)
      ensures forall s :: s in old(sinks) && !old(s.IsClosed()) ==> s in sinks && !s.IsClosed()
      ensures old(pending) != [] && sinks == [] ==> pending == []
      ensures old(pending) != [] && pending != [] ==> exists s :: s in sinks && s.delivered == 0
      ensures Boxes() <= old(Boxes()) && forall o :: o in old(Boxes()) ==> old(o.queue) <= o.queue && o.gone == old(o.gone)
    {
      if pending == [] {
        return;
      }
      Retain();
      if sinks == [] {
        gone := gone + |pending|;
        pending := [];
        return;
      }
      FlushOpen();
    }

    method FlushOpen()
      requires Valid() && sinks != [] && forall s :: s in sinks ==> !s.IsClosed()
      modifies this`pending, this`gone, Repr()
      ensures Valid() && old(gone) <= gone && gone + |pending| == old(gone + |pending|)
      ensures forall s :: s in sinks ==> !s.IsClosed() && Satisfied(s)
      ensures pending != [] ==> exists s :: s in sinks && s.delivered == 0
      ensures forall o :: o in Boxes() ==> old(o.queue) <= o.queue && o.gone == old(o.gone)
    {
      var common, slowest := OfferAll();
      Drop(common);
      assert pending != [] ==> sinks[slowest].delivered == 0;
    }

    /** The first `i` sinks have been offered the buffer, and `common` is how far the slowest of them has got. */
    ghost predicate Offered(i: nat, common: nat, slowest: nat)
      reads this, ring, sinks, Repr()
    {
      && Valid() && common <= |pending| && i <= |sinks|
      && (forall s :: s in sinks ==> !s.IsClosed())
      && (forall j :: 0 <= j < i ==> common <= sinks[j].delivered && Satisfied(sinks[j]))
      && (common == |pending| || (slowest < i && sinks[slowest].delivered == common))
    }

    method OfferAll() returns (common: nat, ghost slowest: nat)
      requires Valid() && sinks != [] && forall s :: s in sinks ==> !s.IsClosed()
      modifies Repr()
      ensures unchanged(this) && Offered(|sinks|, common, slowest)
      ensures forall o :: o in Boxes() ==> old(o.queue) <= o.queue && o.gone == old(o.gone)
    {
      common, slowest := |pending|, 0;
      for i := 0 to |sinks|
        invariant unchanged(this) && Offered(i, common, slowest)
        invariant forall o :: o in Boxes() ==> old(o.queue) <= o.queue && o.gone == old(o.gone)
      {
        var delivered := OfferNext(i, common, slowest);
        if delivered < common {
          common, slowest := delivered, i;
        }
      }
    }

    method OfferNext(i: nat, common: nat, ghost slowest: nat) returns (delivered: nat)
      requires i < |sinks| && Offered(i, common, slowest)
      modifies Repr()
      ensures unchanged(this) && Offered(i + 1, Min(common, delivered), if delivered < common then i else slowest)
      ensures forall o :: o in Boxes() ==> old(o.queue) <= o.queue && o.gone == old(o.gone)
    {
      var sink := sinks[i];
      assert sink in sinks && sink in Repr() && sink.frames in Repr();
      assert forall j :: 0 <= j < i ==> sinks[j] != sink;
      OfferTo(sink);
      delivered := sink.delivered;
    }

    /** The sink has had the whole buffer, or can take no more of it. */
    predicate Satisfied(s: StreamSink)
      reads this, s, s.frames
    {
      s.delivered == |pending| || s.IsBlocked() || s.frames.capacity <= |s.frames.queue|
    }

    /** Offer the buffer to one sink; the others keep what they had. */
    method OfferTo(sink: StreamSink)
      requires Valid() && sink in sinks && !sink.IsClosed()
      modifies sink`credit, sink`closed, sink`log, sink`delivered, sink.frames`queue
      ensures Valid() && !sink.IsClosed() && Satisfied(sink) && sink.delivered <= |pending|
      ensures forall s :: s in sinks && s != sink ==> s.IsClosed() == old(s.IsClosed())
      ensures forall j :: 0 <= j < |sinks| && sinks[j] != sink ==>
                sinks[j].delivered == old(sinks[j].delivered) && (old(Satisfied(sinks[j])) ==> Satisfied(sinks[j]))
      ensures forall o :: o in Boxes() ==> old(o.queue) <= o.queue && o.gone == old(o.gone)
    {
      assert InStep(sink);
      ghost var had := sink.delivered;
      sink.Offer(pending);
      MoreFed(fed, sink.joined, gone, gone + |pending|, had, sink.delivered);
      assert InStep(sink);
      forall s | s in sinks && s != sink
        ensures s.IsClosed() == old(s.IsClosed()) && (old(InStep(s)) ==> InStep(s)) && (old(Satisfied(s)) ==> Satisfied(s))
      {
      }
    }

    static lemma MoreFed(fed: seq<Byte>, joined: nat, gone: nat, taken: nat, had: nat, now: nat)
      requires joined <= gone + had <= gone + now <= taken <= |fed|
      ensures fed[joined..gone + had] + fed[gone..taken][had..now] == fed[joined..gone + now]
    {
      Slices(fed, joined, gone + had, gone + now);
      SliceOfSlice(fed, gone, taken, had, now);
    }

    /** Drop the head of the buffer that every sink has had. */
    method Drop(common: nat)
      requires Valid() && common <= |pending| && forall s :: s in sinks ==> common <= s.delivered
      modifies this`pending, this`gone, Repr()
      ensures Valid() && gone == old(gone) + common && pending == old(pending)[common..]
      ensures forall s :: s in sinks ==> s.delivered == old(s.delivered) - common
      ensures forall s :: s in sinks ==> unchanged(s`credit, s`closed, s`log, s.frames)
    {
      assert forall s :: s in sinks ==> s in Repr();
      pending := pending[common..];
      gone := gone + common;
      forall s | s in sinks {
        s.delivered := s.delivered - common;
      }
      forall s | s in sinks && !s.IsClosed() ensures InStep(s) {
        assert old(InStep(s));
      }
    }
  }
}
