/** In every run, whatever is lost, the frames of one stream are never handed over out of order or twice. */
module MuxOrder {
  import opened Prelude
  import opened Frames
  import opened StreamIds
  import opened Mux
  import opened MuxSafety

  // ----- Subsequences -----

  predicate Among(a: seq<Frame>, b: seq<Frame>)
    decreases |b|
  {
    a == [] || (b != [] && ((a[0] == b[0] && Among(a[1..], b[1..])) || Among(a, b[1..])))
  }

  lemma {:induction false} AmongSelf(a: seq<Frame>)
    ensures Among(a, a)
  {
    if a != [] {
      AmongSelf(a[1..]);
    }
  }

  /** More in front of the larger one. */
  lemma {:induction false} AmongBehind(a: seq<Frame>, front: seq<Frame>, b: seq<Frame>)
    requires Among(a, b)
    ensures Among(a, front + b)
  {
    if front == [] {
      assert front + b == b;
    } else {
      AmongBehind(a, front[1..], b);
      assert (front + b)[1..] == front[1..] + b;
    }
  }

  lemma {:induction false} AmongBoth(a: seq<Frame>, b: seq<Frame>, c: seq<Frame>, d: seq<Frame>)
    requires Among(a, b) && Among(c, d)
    ensures Among(a + c, b + d)
    decreases |b|
  {
    if a == [] {
      assert a + c == c;
      AmongBehind(c, b, d);
    } else {
      assert (b + d)[0] == b[0] && (b + d)[1..] == b[1..] + d;
      assert (a + c)[0] == a[0] && (a + c)[1..] == a[1..] + c;
      if a[0] == b[0] && Among(a[1..], b[1..]) {
        AmongBoth(a[1..], b[1..], c, d);
      } else {
        AmongBoth(a, b[1..], c, d);
      }
    }
  }

  lemma {:induction false} AmongThrough(a: seq<Frame>, b: seq<Frame>, c: seq<Frame>)
    requires Among(a, b) && Among(b, c)
    ensures Among(a, c)
    decreases |c|, |b|
  {
    if a != [] {
      if b[0] == c[0] && Among(b[1..], c[1..]) {
        if a[0] == b[0] && Among(a[1..], b[1..]) {
          AmongThrough(a[1..], b[1..], c[1..]);
        } else {
          AmongThrough(a, b[1..], c[1..]);
        }
      } else {
        AmongThrough(a, b, c[1..]);
      }
    }
  }

  /** Leaving something out of the middle. */
  lemma AmongWithout(a: seq<Frame>, x: seq<Frame>, b: seq<Frame>, c: seq<Frame>)
    requires Among(a + x + b, c)
    ensures Among(a + b, c)
  {
    AmongSelf(a);
    AmongSelf(b);
    AmongBehind(b, x, b);
    AmongBoth(a, a, b, x + b);
    assert a + (x + b) == a + x + b;
    AmongThrough(a + b, a + x + b, c);
  }

  /** The larger one cut in two cuts the smaller one. */
  lemma {:induction false} AmongCut(a: seq<Frame>, b: seq<Frame>, n: nat) returns (k: nat)
    requires Among(a, b) && n <= |b|
    ensures k <= |a| && Among(a[..k], b[..n]) && Among(a[k..], b[n..])
    decreases |b|
  {
    k := 0;
    if n == 0 || a == [] {
      assert a[..0] == [] && b[0..] == b && a[0..] == a;
    } else if a[0] == b[0] && Among(a[1..], b[1..]) {
      k := AmongCut(a[1..], b[1..], n - 1);
      k := k + 1;
      assert a[..k][0] == b[..n][0] && a[..k][1..] == a[1..][..k - 1] && b[..n][1..] == b[1..][..n - 1];
      assert a[1..][k - 1..] == a[k..] && b[1..][n - 1..] == b[n..];
    } else {
      k := AmongCut(a, b[1..], n - 1);
      assert b[..n][1..] == b[1..][..n - 1];
      assert b[1..][n - 1..] == b[n..];
    }
  }

  lemma {:induction false} AmongMember(a: seq<Frame>, b: seq<Frame>)
    requires Among(a, b)
    ensures forall f :: f in a ==> f in b
    decreases |b|
  {
    if a != [] {
      if a[0] == b[0] && Among(a[1..], b[1..]) {
        AmongMember(a[1..], b[1..]);
        assert a == [a[0]] + a[1..];
      } else {
        AmongMember(a, b[1..]);
      }
    }
  }

  // ----- Every run -----

  /** Everything of one stream that has not been lost, in the order in which it is or will be handed over. */
  function Whole(r: Reader, buffer: seq<Frame>, wire: seq<Frame>, id: StreamId): seq<Frame> {
    Of(r.out, id) + Held(r, id) + Of(buffer, id) + Of(wire, id)
  }

  /** All of that was sent, and in that order. */
  predicate Flowing(log: seq<Frame>, r: Reader, buffer: seq<Frame>, wire: seq<Frame>, id: StreamId) {
    Among(Whole(r, buffer, wire, id), Of(log, id))
  }

  lemma {:induction false} OfOf(frames: seq<Frame>, id: StreamId)
    ensures Of(Of(frames, id), id) == Of(frames, id)
  {
    if frames != [] {
      OfOf(frames[1..], id);
      var f := frames[0];
      if f.kind != Credit && f.stream == id {
        FrontFlows(f, Of(frames[1..], id), id);
      } else {
        assert [] + Of(frames[1..], id) == Of(frames[1..], id);
      }
    }
  }

  lemma OfWhole(r: Reader, buffer: seq<Frame>, wire: seq<Frame>, id: StreamId)
    ensures Of(Whole(r, buffer, wire, id), id) == Whole(r, buffer, wire, id)
  {
    OfSplit(Of(r.out, id) + Held(r, id) + Of(buffer, id), Of(wire, id), id);
    OfSplit(Of(r.out, id) + Held(r, id), Of(buffer, id), id);
    OfSplit(Of(r.out, id), Held(r, id), id);
    OfOf(r.out, id);
    OfOf(buffer, id);
    OfOf(wire, id);
    if HeldFor(r, id) {
      OfOf(r.pending.value.frames, id);
    }
  }

  lemma SendFlowing(log: seq<Frame>, r: Reader, buffer: seq<Frame>, wire: seq<Frame>, id: StreamId, f: Frame)
    requires Flowing(log, r, buffer, wire, id)
    ensures Flowing(if f.stream == id then log + [f] else log, r, buffer, wire + [f], id)
  {
    OfSplit(wire, [f], id);
    OfSplit(log, [f], id);
    OfOne(f, id);
    AmongSelf(Of([f], id));
    AmongBoth(Whole(r, buffer, wire, id), Of(log, id), Of([f], id), Of([f], id));
    assert Whole(r, buffer, wire, id) + Of([f], id) == Whole(r, buffer, wire + [f], id);
    if f.stream != id {
      assert Of(log, id) + [] == Of(log, id);
    }
  }

  lemma ReadFlowing(log: seq<Frame>, r: Reader, wire: seq<Frame>, id: StreamId, count: nat)
    requires count <= |wire| && Flowing(log, r, [], wire, id)
    ensures Flowing(log, r, wire[..count], wire[count..], id)
  {
    var all := Whole(r, [], wire, id);
    OfWhole(r, [], wire, id);
    ReadFlows(all, r, wire, id, count);
  }

  lemma SettleFlowing(t: Table, log: seq<Frame>, r: Reader, buffer: seq<Frame>, wire: seq<Frame>, id: StreamId)
    requires r.pending.Some? && r.pending.value.id in t.byStream
    requires forall f :: f in r.pending.value.frames ==> f.stream == r.pending.value.id
    requires Flowing(log, r, buffer, wire, id)
    ensures Flowing(log, Settle(t, r), buffer, wire, id)
  {
    var all := Whole(r, buffer, wire, id);
    OfWhole(r, buffer, wire, id);
    SettleFlows(t, all, r, buffer, wire, id);
  }

  /** Routing one frame moves it on, or leaves it out. */
  lemma RouteFlowing(t: Table, log: seq<Frame>, r: Reader, f: Frame, rest: seq<Frame>, wire: seq<Frame>, id: StreamId)
    requires RouteOrHold(t, r, f).Continue? && t.next !in t.byStream
    requires Flowing(log, r, [f] + rest, wire, id)
    ensures Flowing(log, RouteOrHold(t, r, f).reader, rest, wire, id)
  {
    var all := Whole(r, [f] + rest, wire, id);
    OfWhole(r, [f] + rest, wire, id);
    if HeldFor(r, f.stream) {
      HoldFlows(all, r, f, rest, wire, id);
    } else if f.kind == Credit || f.stream in r.attached {
      assert RouteOrHold(t, r, f).reader == r.(out := r.out + [f]);
      DeliverFlows(all, r, f, rest, wire, id, r.attached);
    } else if f.stream in t.byStream {
      assert RouteOrHold(t, r, f).reader == r.(attached := r.attached + {f.stream}, out := r.out + [f]);
      DeliverFlows(all, r, f, rest, wire, id, r.attached + {f.stream});
    } else if WasAssigned(f.stream, t.next) {
      assert RouteOrHold(t, r, f).reader == r;
      LeftOut(log, r, f, rest, wire, id);
    } else {
      assert RouteOrHold(t, r, f).reader == Hold(r, f).reader;
      HoldFlows(all, r, f, rest, wire, id);
    }
  }

  lemma LeftOut(log: seq<Frame>, r: Reader, f: Frame, rest: seq<Frame>, wire: seq<Frame>, id: StreamId)
    requires Flowing(log, r, [f] + rest, wire, id)
    ensures Flowing(log, r, rest, wire, id)
  {
    FrontFlows(f, rest, id);
    OfOne(f, id);
    Gap(Of(r.out, id), Held(r, id), Of([f], id), Of(rest, id), Of(wire, id));
    AmongWithout(Of(r.out, id) + Held(r, id), Of([f], id), Of(rest, id) + Of(wire, id), Of(log, id));
  }

  lemma Gap<T>(a: seq<T>, b: seq<T>, x: seq<T>, c: seq<T>, d: seq<T>)
    ensures a + b + (x + c) + d == (a + b) + x + (c + d)
    ensures (a + b) + (c + d) == a + b + c + d
  {
  }

  ghost predicate InOrderSoFar(s: State) {
    && Known(s) && s.table.next !in s.table.byStream
    && (forall id :: id in s.table.byStream ==> WasAssigned(id, s.table.next))
    && forall id :: id in s.sent ==> Flowing(s.sent[id], s.reader, s.buffer, s.wire, id)
  }

  lemma TableStep(s: State, e: Event)
    requires Known(s) && Enabled(s, e)
    requires forall id :: id in s.table.byStream ==> WasAssigned(id, s.table.next)
    ensures forall id :: id in Step(s, e).table.byStream ==> WasAssigned(id, Step(s, e).table.next)
  {
    if e.Remember? {
      assert WasAssigned(e.id, s.next);
    }
  }

  lemma NothingFlows(s: State, id: StreamId)
    requires Known(s) && id !in s.minted
    ensures Flowing([], s.reader, s.buffer, s.wire, id)
  {
    Absent(s.reader.out, id);
    Absent(s.buffer, id);
    Absent(s.wire, id);
  }

  lemma StepFlowing(s: State, e: Event, id: StreamId)
    requires InOrderSoFar(s) && Enabled(s, e) && id in Step(s, e).sent
    ensures var n := Step(s, e); Flowing(n.sent[id], n.reader, n.buffer, n.wire, id)
  {
    match e
    case Attach(_) => AttachFlowing(s, e, id);
    case Send(_) => SendStepFlowing(s, e, id);
    case Read(_) => ReadStepFlowing(s, e, id);
    case SettleHeld => SettleStepFlowing(s, id);
    case RouteNext => RouteStepFlowing(s, id);
    case _ => assert Flowing(s.sent[id], s.reader, s.buffer, s.wire, id);
  }

  lemma AttachFlowing(s: State, e: Event, id: StreamId)
    requires InOrderSoFar(s) && Enabled(s, e) && e.Attach? && id in Step(s, e).sent
    ensures var n := Step(s, e); Flowing(n.sent[id], n.reader, n.buffer, n.wire, id)
  {
    if id == s.next {
      NothingFlows(s, id);
    } else {
      assert Flowing(s.sent[id], s.reader, s.buffer, s.wire, id);
    }
  }

  lemma SendStepFlowing(s: State, e: Event, id: StreamId)
    requires Enabled(s, e) && e.Send? && id in s.sent && Flowing(s.sent[id], s.reader, s.buffer, s.wire, id)
    ensures var n := Step(s, e); id in n.sent && Flowing(n.sent[id], n.reader, n.buffer, n.wire, id)
  {
    SendFlowing(s.sent[id], s.reader, s.buffer, s.wire, id, e.frame);
  }

  lemma ReadStepFlowing(s: State, e: Event, id: StreamId)
    requires Enabled(s, e) && e.Read? && id in s.sent && Flowing(s.sent[id], s.reader, s.buffer, s.wire, id)
    ensures var n := Step(s, e); id in n.sent && Flowing(n.sent[id], n.reader, n.buffer, n.wire, id)
  {
    ReadFlowing(s.sent[id], s.reader, s.wire, id, e.count);
  }

  lemma SettleStepFlowing(s: State, id: StreamId)
    requires Known(s) && Enabled(s, SettleHeld) && id in s.sent && Flowing(s.sent[id], s.reader, s.buffer, s.wire, id)
    ensures var n := Step(s, SettleHeld); id in n.sent && Flowing(n.sent[id], n.reader, n.buffer, n.wire, id)
  {
    SettleFlowing(s.table, s.sent[id], s.reader, s.buffer, s.wire, id);
  }

  lemma RouteNextIs(s: State)
    requires Enabled(s, RouteNext)
    ensures Step(s, RouteNext) ==
      match RouteOrHold(s.table, s.reader, s.buffer[0])
      case Drop => s.(down := true)
      case Continue(r) => s.(buffer := s.buffer[1..], reader := r)
  {
  }

  lemma RouteStepFlowing(s: State, id: StreamId)
    requires InOrderSoFar(s) && Enabled(s, RouteNext) && id in s.sent
    ensures var n := Step(s, RouteNext); id in n.sent && Flowing(n.sent[id], n.reader, n.buffer, n.wire, id)
  {
    RouteNextIs(s);
    assert Flowing(s.sent[id], s.reader, s.buffer, s.wire, id);
    FrontRouted(s.table, s.sent[id], s.reader, s.buffer, s.wire, id);
  }

  lemma FrontRouted(t: Table, log: seq<Frame>, r: Reader, buffer: seq<Frame>, wire: seq<Frame>, id: StreamId)
    requires buffer != [] && t.next !in t.byStream && Flowing(log, r, buffer, wire, id)
    ensures match RouteOrHold(t, r, buffer[0])
            case Drop => true
            case Continue(n) => Flowing(log, n, buffer[1..], wire, id)
  {
    assert buffer == [buffer[0]] + buffer[1..];
    if RouteOrHold(t, r, buffer[0]).Continue? {
      RouteFlowing(t, log, r, buffer[0], buffer[1..], wire, id);
    }
  }

  lemma {:induction false} RunFlowing(s: State, run: seq<Event>)
    requires InOrderSoFar(s) && Runs(s, run)
    ensures InOrderSoFar(After(s, run))
    decreases |run|
  {
    if run != [] {
      StepKnown(s, run[0]);
      TableStep(s, run[0]);
      forall id | id in Step(s, run[0]).sent
        ensures var n := Step(s, run[0]); Flowing(n.sent[id], n.reader, n.buffer, n.wire, id)
      {
        StepFlowing(s, run[0], id);
      }
      RunFlowing(Step(s, run[0]), run[1..]);
    }
  }

  /** Whatever is lost, what is handed over under an id was sent under it, each frame once and in the order it was sent. */
  lemma NeverOutOfOrder(run: seq<Event>, id: StreamId)
    requires Runs(START, run) && id in After(START, run).sent
    ensures Among(Of(After(START, run).reader.out, id), Of(After(START, run).sent[id], id))
  {
    RunFlowing(START, run);
    var s := After(START, run);
    FlowingOut(s.sent[id], s.reader, s.buffer, s.wire, id);
  }

  lemma FlowingOut(log: seq<Frame>, r: Reader, buffer: seq<Frame>, wire: seq<Frame>, id: StreamId)
    requires Flowing(log, r, buffer, wire, id)
    ensures Among(Of(r.out, id), Of(log, id))
  {
    Front(Of(r.out, id), Held(r, id), Of(buffer, id), Of(wire, id));
    AmongWithout(Of(r.out, id), Held(r, id) + Of(buffer, id) + Of(wire, id), [], Of(log, id));
  }

  lemma Front<T>(a: seq<T>, b: seq<T>, c: seq<T>, d: seq<T>)
    ensures a + (b + c + d) + [] == a + b + c + d && a + [] == a
  {
  }

  // ----- The other way: credit -----

  /** The panes that have reported, one by one. */
  function Acked(run: seq<Event>): seq<StreamId> {
    if run == [] then [] else (if run[0].Ack? then [run[0].id] else []) + Acked(run[1..])
  }

  function Landings(run: seq<Event>): nat {
    if run == [] then 0 else (if run[0].CreditLands? then 1 else 0) + Landings(run[1..])
  }

  /** The daemon meets every credit frame, in the order the panes reported: what is on its way is what it has not met. */
  lemma {:induction false} CreditInOrder(s: State, run: seq<Event>)
    requires Runs(s, run)
    ensures var all := s.credits + Acked(run);
      Landings(run) <= |all| && After(s, run).credits == all[Landings(run)..]
    decreases |run|
  {
    if run == [] {
      assert s.credits + [] == s.credits;
    } else {
      var n, rest := Step(s, run[0]), run[1..];
      CreditInOrder(n, rest);
      CreditStep(s, run[0]);
      OneMore(s.credits, n.credits, run[0], Acked(rest), Landings(rest));
    }
  }

  lemma CreditStep(s: State, e: Event)
    requires Enabled(s, e)
    ensures e.CreditLands? ==> s.credits != []
    ensures Step(s, e).credits
            == if e.Ack? then s.credits + [e.id] else if e.CreditLands? then s.credits[1..] else s.credits
  {
  }

  lemma OneMore(was: seq<StreamId>, now: seq<StreamId>, e: Event, acked: seq<StreamId>, landed: nat)
    requires landed <= |now + acked| && (e.CreditLands? ==> was != [])
    requires now == if e.Ack? then was + [e.id] else if e.CreditLands? then was[1..] else was
    ensures var all := was + ((if e.Ack? then [e.id] else []) + acked);
      var k := (if e.CreditLands? then 1 else 0) + landed;
      k <= |all| && all[k..] == (now + acked)[landed..]
  {
    var all := was + ((if e.Ack? then [e.id] else []) + acked);
    assert all == if e.CreditLands? then [was[0]] + (now + acked) else now + acked;
  }
}
