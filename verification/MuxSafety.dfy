/** What every interleaving of the two sockets keeps, what only serial attaches keep, and why. */
module MuxSafety {
  import opened Prelude
  import opened Frames
  import opened StreamIds
  import opened Mux

  // ----- Every run -----

  ghost predicate Genuine(sent: map<StreamId, seq<Frame>>, frames: seq<Frame>) {
    forall f :: f in frames ==> f.stream in sent && f in sent[f.stream]
  }

  ghost predicate ReaderKnown(sent: map<StreamId, seq<Frame>>, r: Reader) {
    && r.attached <= sent.Keys && Genuine(sent, r.out)
    && (r.pending.Some? ==>
          && r.pending.value.id in sent && Genuine(sent, r.pending.value.frames)
          && forall f :: f in r.pending.value.frames ==> f.stream == r.pending.value.id)
  }

  /** Ids below the daemon's watermark are the ids it minted, and nobody anywhere holds any other. */
  ghost predicate Known(s: State) {
    && FIRST <= s.table.next <= s.next
    && (forall id: StreamId :: WasAssigned(id, s.next) <==> id in s.minted)
    && s.sent.Keys == s.minted.Keys
    && s.sinks <= s.minted.Keys && s.forgotten <= s.minted.Keys && s.signals <= s.minted.Keys
    && s.requests <= s.minted.Keys
    && (forall id :: id in s.answers ==> id in s.minted && s.answers[id] == s.minted[id])
    && (forall id :: id in s.table.byStream ==> id in s.minted && s.table.byStream[id] == s.minted[id])
    && (forall h :: h in s.table.byHandle ==> s.table.byHandle[h] in s.minted)
    && (forall id :: id in s.credits ==> id in s.minted)
    && Genuine(s.sent, s.wire) && Genuine(s.sent, s.buffer) && ReaderKnown(s.sent, s.reader)
  }

  lemma GenuineGrows(a: map<StreamId, seq<Frame>>, b: map<StreamId, seq<Frame>>, frames: seq<Frame>)
    requires Genuine(a, frames)
    requires forall id :: id in a ==> id in b && a[id] <= b[id]
    ensures Genuine(b, frames)
  {
  }

  lemma ReaderGrows(a: map<StreamId, seq<Frame>>, b: map<StreamId, seq<Frame>>, r: Reader)
    requires ReaderKnown(a, r)
    requires forall id :: id in a ==> id in b && a[id] <= b[id]
    ensures ReaderKnown(b, r)
  {
    GenuineGrows(a, b, r.out);
    if r.pending.Some? {
      GenuineGrows(a, b, r.pending.value.frames);
    }
  }

  lemma HoldKnown(sent: map<StreamId, seq<Frame>>, r: Reader, f: Frame)
    requires ReaderKnown(sent, r) && f.stream in sent && f in sent[f.stream]
    ensures Hold(r, f).Continue? ==> ReaderKnown(sent, Hold(r, f).reader)
  {
  }

  lemma RouteKnown(sent: map<StreamId, seq<Frame>>, t: Table, r: Reader, f: Frame)
    requires ReaderKnown(sent, r) && f.stream in sent && f in sent[f.stream]
    ensures RouteOrHold(t, r, f).Continue? ==> ReaderKnown(sent, RouteOrHold(t, r, f).reader)
  {
    HoldKnown(sent, r, f);
  }

  /** The steps of the daemon, which only ever add to what has been sent. */
  lemma DaemonKnown(s: State, e: Event)
    requires Known(s) && Enabled(s, e) && (e.Attach? || e.Send?)
    ensures Known(Step(s, e))
  {
    var n := Step(s, e);
    GenuineGrows(s.sent, n.sent, s.wire);
    GenuineGrows(s.sent, n.sent, s.buffer);
    ReaderGrows(s.sent, n.sent, s.reader);
  }

  lemma ClientKnown(s: State, e: Event)
    requires Known(s) && Enabled(s, e)
    requires e.Remember? || e.Forget? || e.TellReader? || e.TellDaemon? || e.Expire? || e.CreditLands?
    ensures Known(Step(s, e))
  {
  }

  lemma ReaderStepKnown(s: State, e: Event)
    requires Known(s) && Enabled(s, e) && (e.Read? || e.RouteNext? || e.SettleHeld? || e.Ack?)
    ensures Known(Step(s, e))
  {
    if e.RouteNext? {
      assert s.buffer[0] in s.buffer;
      RouteKnown(s.sent, s.table, s.reader, s.buffer[0]);
    }
  }

  lemma StepKnown(s: State, e: Event)
    requires Known(s) && Enabled(s, e)
    ensures Known(Step(s, e))
  {
    if e.Attach? || e.Send? {
      DaemonKnown(s, e);
    } else if e.Read? || e.RouteNext? || e.SettleHeld? || e.Ack? {
      ReaderStepKnown(s, e);
    } else {
      ClientKnown(s, e);
    }
  }

  lemma {:induction false} RunKnown(s: State, run: seq<Event>)
    requires Known(s) && Runs(s, run)
    ensures Known(After(s, run))
    decreases |run|
  {
    if run != [] {
      StepKnown(s, run[0]);
      RunKnown(Step(s, run[0]), run[1..]);
    }
  }

  /**
    * In every run the table never names a session but the one its id was minted for, everything handed
    * to the window was sent by the daemon under the id it carries, and a credit frame never costs the
    * connection: an id with no live entry is a retired one.
    */
  lemma NothingIsMisrouted(run: seq<Event>, id: StreamId)
    requires Runs(START, run)
    ensures var s := After(START, run);
      && (id in s.table.byStream ==> id in s.minted && s.table.byStream[id] == s.minted[id])
      && (forall f :: f in s.reader.out ==> f.stream in s.sent && f in s.sent[f.stream])
      && (WasAssigned(id, s.next) <==> id in s.minted)
      && (s.credits != [] ==> CreditVerdict(s) != Dropped
                              && (CreditVerdict(s) == Discarded <==> s.credits[0] !in s.sinks))
  {
    RunKnown(START, run);
  }

  // ----- Runs in which one attach is answered before the next is asked for -----

  /** The frames of one stream, credit frames aside: those are routed without looking at the id. */
  function Of(frames: seq<Frame>, id: StreamId): seq<Frame> {
    if frames == [] then []
    else (if frames[0].kind != Credit && frames[0].stream == id then [frames[0]] else []) + Of(frames[1..], id)
  }

  lemma {:induction false} OfSplit(a: seq<Frame>, b: seq<Frame>, id: StreamId)
    ensures Of(a + b, id) == Of(a, id) + Of(b, id)
  {
    if a == [] {
      assert a + b == b;
    } else {
      assert (a + b)[1..] == a[1..] + b;
      OfSplit(a[1..], b, id);
    }
  }

  function Held(r: Reader, id: StreamId): seq<Frame> {
    if r.pending.Some? && r.pending.value.id == id then Of(r.pending.value.frames, id) else []
  }

  /** Everything sent under `id` has been delivered, is held, or is on its way, in the order it was sent. */
  predicate Flows(log: seq<Frame>, r: Reader, buffer: seq<Frame>, wire: seq<Frame>, id: StreamId) {
    Of(log, id) == Of(r.out, id) + Held(r, id) + Of(buffer, id) + Of(wire, id)
  }

  /** A detached id whose tail is being discarded: what was delivered is still a beginning of what was sent. */
  predicate Closed(log: seq<Frame>, r: Reader, id: StreamId) {
    && id !in r.attached
    && (r.pending.Some? ==> r.pending.value.id != id)
    && Of(r.out, id) <= Of(log, id)
  }

  ghost predicate Tracked(s: State, id: StreamId)
    requires id in s.sent
  {
    || Flows(s.sent[id], s.reader, s.buffer, s.wire, id)
    || (id in s.forgotten && Closed(s.sent[id], s.reader, id))
  }

  /** At most one answer is unrecorded, and it names the very id the client's watermark is waiting for. */
  ghost predicate OneAnswer(s: State) {
    || (s.answers == map[] && s.table.next == s.next)
    || (s.answers.Keys == {s.table.next} && s.next == s.table.next + 1)
  }

  ghost predicate Orderly(s: State) {
    && Known(s) && !s.down && OneAnswer(s)
    && (forall id :: id in s.minted ==> id in s.answers || id in s.table.byStream || id in s.forgotten)
    && (forall id :: id in s.forgotten ==> id !in s.answers && id !in s.table.byStream)
    && (forall id :: id in s.answers ==> id !in s.table.byStream && id !in s.reader.attached)
    && (forall h :: h in s.table.byHandle ==>
          s.table.byHandle[h] in s.table.byStream && s.table.byStream[s.table.byHandle[h]] == h)
    && (s.reader.pending.Some? ==> forall f :: f in s.buffer ==> f.stream <= s.reader.pending.value.id)
  }

  ghost predicate Serial(s: State) {
    Orderly(s) && forall id :: id in s.sent ==> Tracked(s, id)
  }

  predicate SerialStep(s: State, e: Event) {
    Enabled(s, e) && (e.Attach? ==> s.answers == map[])
  }

  predicate SerialRuns(s: State, run: seq<Event>)
    decreases |run|
  {
    run == [] || (SerialStep(s, run[0]) && SerialRuns(Step(s, run[0]), run[1..]))
  }

  // ----- The control side -----

  /** The frame at the front of the buffer is never one this client could not have been told about. */
  lemma RouteContinues(s: State)
    requires Orderly(s) && s.buffer != []
    ensures RouteOrHold(s.table, s.reader, s.buffer[0]).Continue?
  {
    var f := s.buffer[0];
    assert f in s.buffer && WasAssigned(f.stream, s.next);
    if s.reader.pending.Some? {
      assert WasAssigned(s.reader.pending.value.id, s.next);
    }
  }

  lemma RouteOrderly(s: State)
    requires Orderly(s) && Enabled(s, RouteNext)
    ensures Orderly(Step(s, RouteNext))
  {
    StepKnown(s, RouteNext);
    RouteContinues(s);
    var n := Step(s, RouteNext);
    assert s.buffer[0] in s.buffer && WasAssigned(s.buffer[0].stream, s.next);
    assert forall g :: g in n.buffer ==> g in s.buffer && WasAssigned(g.stream, s.next);
  }

  lemma AnswersOrderly(s: State, e: Event)
    requires Orderly(s) && SerialStep(s, e) && (e.Attach? || e.Remember?)
    ensures Orderly(Step(s, e))
  {
    StepKnown(s, e);
    assert forall f :: f in s.buffer ==> WasAssigned(f.stream, s.next);
  }

  lemma DetachOrderly(s: State, e: Event)
    requires Orderly(s) && SerialStep(s, e) && (e.Forget? || e.TellReader? || e.TellDaemon?)
    ensures Orderly(Step(s, e))
  {
    StepKnown(s, e);
  }

  lemma StepOrderly(s: State, e: Event)
    requires Orderly(s) && SerialStep(s, e) && !e.Expire?
    ensures Orderly(Step(s, e))
  {
    match e
    case RouteNext => RouteOrderly(s);
    case Attach(_) => AnswersOrderly(s, e);
    case Remember(_) => AnswersOrderly(s, e);
    case Forget(_) => DetachOrderly(s, e);
    case TellReader(_) => DetachOrderly(s, e);
    case TellDaemon(_) => DetachOrderly(s, e);
    case _ => StepKnown(s, e);
  }

  // ----- The frames -----

  lemma {:induction false} Absent(frames: seq<Frame>, id: StreamId)
    requires forall f :: f in frames ==> f.stream != id
    ensures Of(frames, id) == []
  {
    if frames != [] {
      Absent(frames[1..], id);
    }
  }

  /** An id that has not been minted is nowhere. */
  lemma NothingYet(s: State, id: StreamId)
    requires Known(s) && id !in s.minted
    ensures Flows([], s.reader, s.buffer, s.wire, id)
  {
    Absent(s.reader.out, id);
    Absent(s.buffer, id);
    Absent(s.wire, id);
  }

  lemma OfOne(f: Frame, id: StreamId)
    ensures Of([f], id) == if f.kind != Credit && f.stream == id then [f] else []
  {
    assert [f][1..] == [];
  }

  lemma SendFlows(log: seq<Frame>, r: Reader, buffer: seq<Frame>, wire: seq<Frame>, id: StreamId, f: Frame)
    ensures Flows(log, r, buffer, wire, id) ==>
            Flows(if f.stream == id then log + [f] else log, r, buffer, wire + [f], id)
    ensures Of(log, id) <= Of(log + [f], id)
  {
    OfSplit(wire, [f], id);
    OfSplit(log, [f], id);
    OfOne(f, id);
  }

  lemma ReadFlows(log: seq<Frame>, r: Reader, wire: seq<Frame>, id: StreamId, count: nat)
    requires count <= |wire|
    ensures Flows(log, r, [], wire, id) ==> Flows(log, r, wire[..count], wire[count..], id)
  {
    OfSplit(wire[..count], wire[count..], id);
    assert wire[..count] + wire[count..] == wire;
  }

  lemma SettleFlows(t: Table, log: seq<Frame>, r: Reader, buffer: seq<Frame>, wire: seq<Frame>, id: StreamId)
    requires r.pending.Some? && r.pending.value.id in t.byStream
    requires forall f :: f in r.pending.value.frames ==> f.stream == r.pending.value.id
    ensures Flows(log, r, buffer, wire, id) ==> Flows(log, Settle(t, r), buffer, wire, id)
    ensures id != r.pending.value.id && Closed(log, r, id) ==> Closed(log, Settle(t, r), id)
  {
    var held := r.pending.value;
    OfSplit(r.out, held.frames, id);
    if id != held.id {
      Absent(held.frames, id);
    }
  }

  lemma FrontFlows(f: Frame, rest: seq<Frame>, id: StreamId)
    ensures Of([f] + rest, id) == (if f.kind != Credit && f.stream == id then [f] else []) + Of(rest, id)
  {
    assert ([f] + rest)[1..] == rest;
  }

  /** A frame delivered past a hold for another id keeps its place. */
  lemma DeliverFlows(log: seq<Frame>, r: Reader, f: Frame, rest: seq<Frame>, wire: seq<Frame>, id: StreamId,
                     attached: set<StreamId>)
    requires Flows(log, r, [f] + rest, wire, id)
    requires f.stream == id && f.kind != Credit ==> Held(r, id) == []
    ensures Flows(log, r.(attached := attached, out := r.out + [f]), rest, wire, id)
  {
    FrontFlows(f, rest, id);
    OfSplit(r.out, [f], id);
    OfOne(f, id);
    var out, held, tail, sea := Of(r.out, id), Held(r, id), Of(rest, id), Of(wire, id);
    Regroup(out, held, Of([f], id), tail, sea);
  }

  /** A frame held keeps its place. */
  lemma HoldFlows(log: seq<Frame>, r: Reader, f: Frame, rest: seq<Frame>, wire: seq<Frame>, id: StreamId)
    requires Flows(log, r, [f] + rest, wire, id) && Hold(r, f).Continue?
    ensures Flows(log, Hold(r, f).reader, rest, wire, id)
  {
    FrontFlows(f, rest, id);
    HeldGrows(r, f, id);
    var out, held, tail, sea := Of(r.out, id), Held(r, id), Of(rest, id), Of(wire, id);
    OfOne(f, id);
    Regroup(out, held, Of([f], id), tail, sea);
  }

  lemma Regroup<T>(a: seq<T>, b: seq<T>, c: seq<T>, d: seq<T>, e: seq<T>)
    ensures a + b + (c + d) + e == a + (b + c) + d + e
    ensures a + [] + (c + d) + e == (a + c) + [] + d + e
    ensures [] + d == d && a + [] == a
  {
  }

  lemma HeldGrows(r: Reader, f: Frame, id: StreamId)
    requires Hold(r, f).Continue?
    ensures Held(Hold(r, f).reader, id) == Held(r, id) + Of([f], id)
  {
    OfOne(f, id);
    if r.pending.Some? && r.pending.value.id == id {
      OfSplit(r.pending.value.frames, [f], id);
    }
  }

  /** Routing one frame moves it on without losing its place, or begins the discarding of a detached id. */
  lemma RouteFlows(t: Table, log: seq<Frame>, r: Reader, f: Frame, rest: seq<Frame>, wire: seq<Frame>, id: StreamId)
    requires RouteOrHold(t, r, f).Continue? && Flows(log, r, [f] + rest, wire, id)
    requires t.next !in t.byStream
    ensures var r' := RouteOrHold(t, r, f).reader;
      Flows(log, r', rest, wire, id) || (Closed(log, r', id) && id !in t.byStream && WasAssigned(id, t.next))
  {
    if r.pending.Some? && r.pending.value.id == f.stream {
      HoldFlows(log, r, f, rest, wire, id);
    } else if f.kind == Credit || f.stream in r.attached {
      assert RouteOrHold(t, r, f).reader == r.(out := r.out + [f]);
      DeliverFlows(log, r, f, rest, wire, id, r.attached);
    } else if f.stream in t.byStream {
      assert RouteOrHold(t, r, f).reader == r.(attached := r.attached + {f.stream}, out := r.out + [f]);
      DeliverFlows(log, r, f, rest, wire, id, r.attached + {f.stream});
    } else if WasAssigned(f.stream, t.next) {
      assert RouteOrHold(t, r, f).reader == r;
      FrontFlows(f, rest, id);
    } else {
      assert RouteOrHold(t, r, f).reader == Hold(r, f).reader;
      HoldFlows(log, r, f, rest, wire, id);
    }
  }

  /** Once an id is being discarded, nothing is delivered under it again. */
  lemma RouteClosed(t: Table, log: seq<Frame>, r: Reader, f: Frame, id: StreamId)
    requires RouteOrHold(t, r, f).Continue? && Closed(log, r, id)
    requires id !in t.byStream && id != t.next && t.next !in t.byStream
    ensures Closed(log, RouteOrHold(t, r, f).reader, id)
  {
    OfSplit(r.out, [f], id);
    OfOne(f, id);
  }

  lemma StepTracked(s: State, e: Event, id: StreamId)
    requires Serial(s) && SerialStep(s, e) && !e.Expire? && id in Step(s, e).sent
    ensures Tracked(Step(s, e), id)
  {
    assert id in s.sent ==> Tracked(s, id);
    match e
    case Attach(_) => AttachTracked(s, e, id);
    case Send(_) => SendTracked(s, e, id);
    case Read(_) => ReadTracked(s, e, id);
    case SettleHeld => SettleTracked(s, id);
    case RouteNext => RouteTracked(s, id);
    case _ =>
  }

  lemma AttachTracked(s: State, e: Event, id: StreamId)
    requires Known(s) && Enabled(s, e) && e.Attach? && id in Step(s, e).sent && (id in s.sent ==> Tracked(s, id))
    ensures Tracked(Step(s, e), id)
  {
    if id == s.next {
      NothingYet(s, id);
    }
  }

  lemma SendTracked(s: State, e: Event, id: StreamId)
    requires Enabled(s, e) && e.Send? && id in s.sent && Tracked(s, id)
    ensures Tracked(Step(s, e), id)
  {
    SendFlows(s.sent[id], s.reader, s.buffer, s.wire, id, e.frame);
  }

  lemma ReadTracked(s: State, e: Event, id: StreamId)
    requires Enabled(s, e) && e.Read? && id in s.sent && Tracked(s, id)
    ensures Tracked(Step(s, e), id)
  {
    ReadFlows(s.sent[id], s.reader, s.wire, id, e.count);
  }

  lemma SettleTracked(s: State, id: StreamId)
    requires Orderly(s) && Enabled(s, SettleHeld) && id in s.sent && Tracked(s, id)
    ensures Tracked(Step(s, SettleHeld), id)
  {
    SettleFlows(s.table, s.sent[id], s.reader, s.buffer, s.wire, id);
  }

  lemma RouteEither(t: Table, log: seq<Frame>, r: Reader, f: Frame, rest: seq<Frame>, wire: seq<Frame>, id: StreamId,
                    detached: bool)
    requires RouteOrHold(t, r, f).Continue? && t.next !in t.byStream
    requires Flows(log, r, [f] + rest, wire, id) || (detached && Closed(log, r, id))
    requires id !in t.byStream && WasAssigned(id, t.next) ==> detached
    requires detached ==> id !in t.byStream && id != t.next
    ensures var r' := RouteOrHold(t, r, f).reader;
      Flows(log, r', rest, wire, id) || (detached && Closed(log, r', id))
  {
    if Flows(log, r, [f] + rest, wire, id) {
      RouteFlows(t, log, r, f, rest, wire, id);
    } else {
      RouteClosed(t, log, r, f, id);
    }
  }

  lemma RouteTracked(s: State, id: StreamId)
    requires Orderly(s) && s.buffer != [] && id in s.sent && Tracked(s, id)
    ensures Enabled(s, RouteNext) && id in Step(s, RouteNext).sent && Tracked(Step(s, RouteNext), id)
  {
    RouteContinues(s);
    var f, rest := s.buffer[0], s.buffer[1..];
    assert s.buffer == [f] + rest;
    RouteEither(s.table, s.sent[id], s.reader, f, rest, s.wire, id, id in s.forgotten);
  }

  /** All that the deadline changes is that the connection is down, and it is the last thing that happens. */
  lemma {:induction false} RunSerial(s: State, run: seq<Event>)
    requires Serial(s) && SerialRuns(s, run)
    ensures Runs(s, run) && Serial(After(s, run).(down := false))
    ensures After(s, run).down <==> Expire in run
    decreases |run|
  {
    if run != [] {
      assert run == [run[0]] + run[1..];
      var n := Step(s, run[0]);
      if run[0].Expire? {
        assert n.(down := false) == s && run[1..] == [];
      } else {
        StepOrderly(s, run[0]);
        forall id | id in n.sent ensures Tracked(n, id) {
          StepTracked(s, run[0], id);
        }
        RunSerial(n, run[1..]);
      }
    }
  }

  /**
    * As long as each attach is answered and recorded before the next is asked for, only the deadline ever drops
    * the connection; what the client hands to the window under each id is a beginning of what the daemon sent
    * under it, in order; and for a session that has not been detached the rest of it is still on the way.
    */
  lemma SerialAttachesLoseNothing(run: seq<Event>, id: StreamId)
    requires SerialRuns(START, run)
    ensures Runs(START, run)
    ensures var s := After(START, run);
      && (s.down <==> Expire in run)
      && (id in s.sent ==> Of(s.reader.out, id) <= Of(s.sent[id], id))
      && (id in s.sent && id !in s.forgotten ==>
            Of(s.sent[id], id) == Of(s.reader.out, id) + Held(s.reader, id) + Of(s.buffer, id) + Of(s.wire, id))
  {
    RunSerial(START, run);
    SerialLosesNothing(After(START, run).(down := false), id);
  }

  lemma SerialLosesNothing(s: State, id: StreamId)
    requires Serial(s)
    ensures !s.down
    ensures id in s.sent ==> Of(s.reader.out, id) <= Of(s.sent[id], id)
    ensures id in s.sent && id !in s.forgotten ==>
      Of(s.sent[id], id) == Of(s.reader.out, id) + Held(s.reader, id) + Of(s.buffer, id) + Of(s.wire, id)
  {
    if id in s.sent {
      assert Tracked(s, id);
    }
  }
}
