/** That what is stuck stays stuck, for as long as nothing is flushed. */
module CreditStuck {
  import opened Prelude
  import opened Credit
  import opened CreditRuns
  import opened CreditStalls

  // ----- One stream -----

  /** Nothing of this stream can be sent, is on its way, is waiting to be painted or is about to be acked. */
  predicate Stalled(l: Link, id: Id) {
    && id in l.sinks && id in l.tallies && id !in l.retired && l.sinks[id] <= 0
    && (forall p :: p in l.wire ==> p.id != id)
    && (forall a :: a in l.acks ==> a.id != id)
    && (id in l.ledger.streams ==> Unpainted(l, id) == 0 && !(l.ledger.BatchFull(id) && l.ledger.Owing(id)))
  }

  lemma StalledStep(l: Link, e: Event, id: Id)
    requires Stalled(l, id) && Enabled(l, e) && Plain([e])
    ensures var m := Next(l, e);
      Stalled(m, id) && m.sinks[id] == l.sinks[id] && m.tallies[id] == l.tallies[id]
  {
    assert e in [e];
    match e
    case Send(_, _, _) =>
    case Arrive => ArriveStalled(l, id);
    case Paint(_, _) => PaintStalled(l, e, id);
    case AckLands => assert l.acks[0] in l.acks;
    case _ =>
  }

  lemma ArriveStalled(l: Link, id: Id)
    requires Stalled(l, id) && Enabled(l, Arrive)
    ensures var m := Next(l, Arrive);
      Stalled(m, id) && m.sinks[id] == l.sinks[id] && m.tallies[id] == l.tallies[id]
  {
    assert l.wire[0] in l.wire;
  }

  lemma PaintStalled(l: Link, e: Event, id: Id)
    requires Stalled(l, id) && Enabled(l, e) && e.Paint?
    ensures var m := Next(l, e);
      Stalled(m, id) && m.sinks[id] == l.sinks[id] && m.tallies[id] == l.tallies[id]
  {
    if e.id == id {
      assert e.n == 0;
      assert l.ledger.Paint(id, 0).streams[id] == l.ledger.streams[id];
    }
  }

  /** A stream that is stuck is never sent another byte, whatever else is opened, sent, painted and acked. */
  lemma {:induction false} StreamStaysStuck(l: Link, run: seq<Event>, id: Id)
    requires (StuckStream(l, id) && id !in l.retired) || Stalled(l, id)
    requires Plain(run) && Runs(l, run)
    ensures var m := After(l, run);
      Stalled(m, id) && m.sinks[id] == l.sinks[id] <= 0 && m.tallies[id].frames == l.tallies[id].frames
    decreases |run|
  {
    if run != [] {
      assert run[0] in run && Plain([run[0]]) && Plain(run[1..]);
      StalledStep(l, run[0], id);
      StreamStaysStuck(Next(l, run[0]), run[1..], id);
    }
  }

  // ----- The shared budget -----

  /** There is none left, none is waiting to be painted, and none is about to be given back. */
  ghost predicate Exhausted(l: Link) {
    && l.header == 0 && l.retired == {} && l.acks == [] && l.ledger.totalCredit == 0
    && (forall id :: id in l.tallies ==> l.tallies[id].extra == 0)
    && (forall id :: id in l.ledger.streams ==>
          id in l.tallies && l.ledger.streams[id].unrendered == 0 && !(l.ledger.BatchFull(id) && l.ledger.Owing(id)))
  }

  lemma ExhaustedStep(l: Link, e: Event)
    requires Exhausted(l) && Enabled(l, e) && Plain([e])
    ensures Exhausted(Next(l, e)) && Next(l, e).ledger.window == l.ledger.window
  {
    assert e in [e];
    match e
    case Arrive => ArriveExhausted(l);
    case Paint(_, _) => PaintExhausted(l, e);
    case _ =>
  }

  lemma ArriveExhausted(l: Link)
    requires Exhausted(l) && Enabled(l, Arrive)
    ensures Exhausted(Next(l, Arrive)) && Next(l, Arrive).ledger.window == l.ledger.window
  {
    assert l.wire[0].n == 0;
  }

  lemma PaintExhausted(l: Link, e: Event)
    requires Exhausted(l) && Enabled(l, e) && e.Paint?
    ensures Exhausted(Next(l, e)) && Next(l, e).ledger.window == l.ledger.window
  {
    assert e.n == 0;
    assert l.ledger.Paint(e.id, 0).streams[e.id] == l.ledger.streams[e.id];
  }

  /** A budget that is stuck is never given back: the reader never reads again, and would refuse what it read. */
  lemma {:induction false} TotalStaysStuck(l: Link, run: seq<Event>)
    requires StuckTotal(l) || Exhausted(l)
    requires Plain(run) && Runs(l, run) && 0 < l.ledger.window.chunk
    ensures var m := After(l, run);
      && Exhausted(m) && m.ledger.window == l.ledger.window
      && (m.ledger.streams != map[] ==> m.ledger.IsBlocked())
      && (m.wire != [] && 0 < m.wire[0].n ==> Refused(m))
    decreases |run|
  {
    if run != [] {
      assert run[0] in run && Plain([run[0]]) && Plain(run[1..]);
      ExhaustedStep(l, run[0]);
      TotalStaysStuck(Next(l, run[0]), run[1..]);
    }
  }
}
