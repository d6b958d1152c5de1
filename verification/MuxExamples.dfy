/** Runs that show why attaches have to be serial, and what a detach can do to a frame that is held. */
module MuxExamples {
  import opened Prelude
  import opened Frames
  import opened StreamIds
  import opened Mux

  lemma {:induction false} RunsSnoc(s: State, run: seq<Event>, e: Event)
    requires Runs(s, run) && Enabled(After(s, run), e)
    ensures Runs(s, run + [e]) && After(s, run + [e]) == Step(After(s, run), e)
    decreases |run|
  {
    if run == [] {
      assert [] + [e] == [e] && [e][1..] == [] && Runs(Step(s, e), []);
    } else {
      assert (run + [e])[1..] == run[1..] + [e];
      RunsSnoc(Step(s, run[0]), run[1..], e);
    }
  }

  function Output1(id: StreamId): Frame {
    Frame(Output, id, [65])
  }

  /** Two panes attached at once: both ids are minted, and neither answer has been recorded. */
  const BOTH := [Attach("a")] + [Attach("b")]

  lemma Both()
    ensures Runs(START, BOTH)
    ensures After(START, BOTH) == START.(next := 3, sinks := {1, 2}, minted := map[1 := "a", 2 := "b"],
                                         sent := map[1 := [], 2 := []], answers := map[1 := "a", 2 := "b"])
  {
    assert Runs(START, []) && After(START, []) == START;
    RunsSnoc(START, [], Attach("a"));
    assert [] + [Attach("a")] == [Attach("a")];
    RunsSnoc(START, [Attach("a")], Attach("b"));
  }

  /** The second pane's first frame, seen before the first pane's answer, drops the connection. */
  lemma TwoAttachesDropTheConnection()
    ensures var run := BOTH + [Send(Output1(2))] + [Read(1)] + [RouteNext];
      Runs(START, run) && After(START, run).down
  {
    Both();
    RunsSnoc(START, BOTH, Send(Output1(2)));
    RunsSnoc(START, BOTH + [Send(Output1(2))], Read(1));
    RunsSnoc(START, BOTH + [Send(Output1(2))] + [Read(1)], RouteNext);
  }

  /** Recorded in the other order, the first pane's opening bytes are thrown away though nobody detached it. */
  lemma TwoAttachesLoseAFrame()
    ensures var run := BOTH + [Send(Output1(1))] + [Remember(2)] + [Read(1)] + [RouteNext] + [Remember(1)];
      && Runs(START, run)
      && var s := After(START, run);
      && 1 in s.table.byStream && s.forgotten == {} && !s.down
      && 1 in s.sent && s.sent[1] == [Output1(1)]
      && s.wire == [] && s.buffer == [] && s.reader.pending.None? && s.reader.out == []
  {
    Both();
    RunsSnoc(START, BOTH, Send(Output1(1)));
    RunsSnoc(START, BOTH + [Send(Output1(1))], Remember(2));
    RunsSnoc(START, BOTH + [Send(Output1(1))] + [Remember(2)], Read(1));
    RunsSnoc(START, BOTH + [Send(Output1(1))] + [Remember(2)] + [Read(1)], RouteNext);
    RunsSnoc(START, BOTH + [Send(Output1(1))] + [Remember(2)] + [Read(1)] + [RouteNext], Remember(1));
  }

  // ----- A pane closed while its frames are held -----

  /** Frames are held for an id that no answer will ever name: it has been recorded and detached already. */
  predicate Doomed(s: State) {
    && s.reader.pending.Some?
    && var id := s.reader.pending.value.id;
    id in s.minted && id !in s.answers && id !in s.table.byStream && WasAssigned(id, s.next)
    && (forall x :: x in s.minted ==> WasAssigned(x, s.next))
  }

  lemma DoomedStep(s: State, e: Event)
    requires Doomed(s) && Enabled(s, e)
    ensures Step(s, e).down || (Doomed(Step(s, e)) && Step(s, e).reader.pending.value.id == s.reader.pending.value.id)
    ensures !e.Read? && !e.SettleHeld?
  {
  }

  /**
    * From there the reader never reads again: the hold is settled against the table and never against the
    * watermark, so all that can end it is the deadline, which drops the connection and every pane on it.
    */
  lemma {:induction false} DoomedForEver(s: State, run: seq<Event>)
    requires Doomed(s) && Runs(s, run)
    ensures After(s, run).down || Doomed(After(s, run))
    ensures forall e :: e in run ==> !e.Read?
    decreases |run|
  {
    if run != [] {
      DoomedStep(s, run[0]);
      var n := Step(s, run[0]);
      if n.down {
        assert run[1..] == [];
        assert run == [run[0]] + run[1..];
      } else {
        DoomedForEver(n, run[1..]);
        assert run == [run[0]] + run[1..];
      }
    }
  }

  /** One attach, one early frame, and a pane closed before the reader has looked again. */
  const EARLY := [Attach("a")] + [Send(Output1(1))] + [Read(1)] + [RouteNext]

  lemma ClosedWhileHeld()
    ensures var run := EARLY + [Remember(1)] + [Forget("a")];
      Runs(START, run) && Doomed(After(START, run))
  {
    assert Runs(START, []) && After(START, []) == START;
    RunsSnoc(START, [], Attach("a"));
    assert [] + [Attach("a")] == [Attach("a")];
    RunsSnoc(START, [Attach("a")], Send(Output1(1)));
    RunsSnoc(START, [Attach("a")] + [Send(Output1(1))], Read(1));
    RunsSnoc(START, [Attach("a")] + [Send(Output1(1))] + [Read(1)], RouteNext);
    RunsSnoc(START, EARLY, Remember(1));
    RunsSnoc(START, EARLY + [Remember(1)], Forget("a"));
  }

  /** A credit frame for a pane that is detached before it lands is discarded; one for a pane that is not is routed. */
  const ACKED := [Attach("a")] + [Remember(1)] + [Ack(1)]

  lemma AckCrossesDetach()
    ensures Runs(START, ACKED) && After(START, ACKED).credits == [1] && CreditVerdict(After(START, ACKED)) == Routed
    ensures var run := ACKED + [Forget("a")] + [TellDaemon(1)];
      Runs(START, run) && After(START, run).credits == [1] && CreditVerdict(After(START, run)) == Discarded
  {
    assert Runs(START, []) && After(START, []) == START;
    RunsSnoc(START, [], Attach("a"));
    assert [] + [Attach("a")] == [Attach("a")];
    RunsSnoc(START, [Attach("a")], Remember(1));
    RunsSnoc(START, [Attach("a")] + [Remember(1)], Ack(1));
    RunsSnoc(START, ACKED, Forget("a"));
    RunsSnoc(START, ACKED + [Forget("a")], TellDaemon(1));
  }
}
