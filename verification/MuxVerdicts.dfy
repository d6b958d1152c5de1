/** When exactly a frame costs the connection, is thrown away or is held for good, in every run. */
module MuxVerdicts {
  import opened Prelude
  import opened Frames
  import opened StreamIds
  import opened Mux
  import opened MuxSafety
  import opened MuxExamples

  /** Every id handed out is waiting to be recorded, in the table or detached, and only one of these. */
  ghost predicate Accounted(s: State) {
    && Known(s)
    && (forall id :: id in s.minted ==> id in s.answers || id in s.table.byStream || id in s.forgotten)
    && (forall id :: id in s.answers ==> id !in s.table.byStream && id !in s.forgotten && id !in s.reader.attached)
    && (forall id :: id in s.forgotten ==> id !in s.table.byStream && WasAssigned(id, s.table.next))
    && (forall id :: id in s.table.byStream ==> WasAssigned(id, s.table.next))
    && (forall id :: id in s.reader.attached ==> id in s.table.byStream || id in s.forgotten)
    && (forall h :: h in s.table.byHandle ==>
          s.table.byHandle[h] in s.table.byStream && s.table.byStream[s.table.byHandle[h]] == h)
  }

  lemma StepAccounted(s: State, e: Event)
    requires Accounted(s) && Enabled(s, e)
    ensures Accounted(Step(s, e))
  {
    StepKnown(s, e);
    match e
    case Attach(_) => AttachAccounted(s, e);
    case Remember(_) => RememberAccounted(s, e);
    case Forget(_) => ForgetAccounted(s, e);
    case RouteNext => ReaderAccounted(s, e);
    case SettleHeld => ReaderAccounted(s, e);
    case _ =>
  }

  lemma AttachAccounted(s: State, e: Event)
    requires Accounted(s) && Enabled(s, e) && e.Attach? && Known(Step(s, e))
    ensures Accounted(Step(s, e))
  {
    assert s.next !in s.minted;
  }

  lemma RememberAccounted(s: State, e: Event)
    requires Accounted(s) && Enabled(s, e) && e.Remember? && Known(Step(s, e))
    ensures Accounted(Step(s, e))
  {
    assert WasAssigned(e.id, s.next);
  }

  lemma ForgetAccounted(s: State, e: Event)
    requires Accounted(s) && Enabled(s, e) && e.Forget? && Known(Step(s, e))
    ensures Accounted(Step(s, e))
  {
    var id := s.table.byHandle[e.session];
    assert id in s.table.byStream;
  }

  lemma ReaderAccounted(s: State, e: Event)
    requires Accounted(s) && Enabled(s, e) && (e.RouteNext? || e.SettleHeld?) && Known(Step(s, e))
    ensures Accounted(Step(s, e))
  {
    var n := Step(s, e);
    assert n.table == s.table && n.answers == s.answers && n.forgotten == s.forgotten && n.minted == s.minted;
    AttachedGrows(s, e);
  }

  lemma AttachedGrows(s: State, e: Event)
    requires Enabled(s, e) && (e.RouteNext? || e.SettleHeld?)
    ensures forall id :: id in Step(s, e).reader.attached ==> id in s.reader.attached || id in s.table.byStream
  {
  }

  lemma {:induction false} RunAccounted(s: State, run: seq<Event>)
    requires Accounted(s) && Runs(s, run)
    ensures Accounted(After(s, run))
    decreases |run|
  {
    if run != [] {
      StepAccounted(s, run[0]);
      RunAccounted(Step(s, run[0]), run[1..]);
    }
  }

  // ----- A frame that costs the connection -----

  /**
    * In every run the next frame drops the connection exactly when its id is one nothing is held for, has no live
    * entry, and is past the watermark, or at it while something else is held.
    */
  lemma DropsExactly(run: seq<Event>)
    requires Runs(START, run) && Enabled(After(START, run), RouteNext)
    ensures var s := After(START, run);
      var f := s.buffer[0];
      Step(s, RouteNext).down <==>
        && f.kind != Credit && !HeldFor(s.reader, f.stream)
        && f.stream !in s.reader.attached && f.stream !in s.table.byStream
        && (f.stream > s.table.next || (f.stream == s.table.next && s.reader.pending.Some?))
  {
    RunKnown(START, run);
    var s := After(START, run);
    var f := s.buffer[0];
    assert f in s.buffer && f.stream in s.minted;
  }

  // ----- A frame that is thrown away -----

  /** The frame at the front is read and changes nothing. */
  predicate ThrownAway(s: State)
    requires s.buffer != []
  {
    s.buffer[0].kind != Credit && RouteOrHold(s.table, s.reader, s.buffer[0]) == Continue(s.reader)
  }

  /**
    * In every run a frame is thrown away exactly when nothing is held for its id and that id has been detached and
    * the reader told so, or has not been recorded although a later one has.
    */
  lemma ThrownExactly(run: seq<Event>)
    requires Runs(START, run) && After(START, run).buffer != []
    ensures var s := After(START, run);
      var f := s.buffer[0];
      ThrownAway(s) <==>
        && f.kind != Credit && !HeldFor(s.reader, f.stream)
        && ((f.stream in s.forgotten && f.stream !in s.reader.attached)
            || (f.stream in s.answers && f.stream < s.table.next))
  {
    RunAccounted(START, run);
    var s := After(START, run);
    assert s.buffer[0] in s.buffer;
    ThrownHere(s);
  }

  lemma ThrownHere(s: State)
    requires Accounted(s) && s.buffer != [] && s.buffer[0].stream in s.minted
    ensures var f := s.buffer[0];
      ThrownAway(s) <==>
        && f.kind != Credit && !HeldFor(s.reader, f.stream)
        && ((f.stream in s.forgotten && f.stream !in s.reader.attached)
            || (f.stream in s.answers && f.stream < s.table.next))
  {
    var f, r := s.buffer[0], s.reader;
    assert r.out != r.out + [f];
    assert r.pending.Some? ==> r.pending.value.frames != r.pending.value.frames + [f];
    assert WasAssigned(f.stream, s.next);
  }

  /** Answers are recorded in the order the ids were handed out. */
  predicate InOrder(s: State, e: Event) {
    Enabled(s, e) && (e.Remember? ==> forall id :: id in s.answers ==> e.id <= id)
  }

  predicate InOrderRuns(s: State, run: seq<Event>)
    decreases |run|
  {
    run == [] || (InOrder(s, run[0]) && InOrderRuns(Step(s, run[0]), run[1..]))
  }

  lemma {:induction false} AnswersAhead(s: State, run: seq<Event>)
    requires Accounted(s) && InOrderRuns(s, run) && forall id :: id in s.answers ==> s.table.next <= id
    ensures Runs(s, run) && Accounted(After(s, run))
    ensures forall id :: id in After(s, run).answers ==> After(s, run).table.next <= id
    decreases |run|
  {
    if run != [] {
      StepAccounted(s, run[0]);
      AnswersAhead(Step(s, run[0]), run[1..]);
    }
  }

  /** Then only a detached pane ever loses a frame, however many attaches are in flight. */
  lemma InOrderKeepsLiveFrames(run: seq<Event>)
    requires InOrderRuns(START, run)
    ensures Runs(START, run)
    ensures var s := After(START, run);
      s.buffer != [] && ThrownAway(s) ==> s.buffer[0].stream in s.forgotten
  {
    AnswersAhead(START, run);
    var s := After(START, run);
    if s.buffer != [] {
      assert s.buffer[0] in s.buffer;
      ThrownHere(s);
    }
  }

  // ----- A frame that is held for good -----

  /** In every run what is held is held for good exactly when its pane has been detached. */
  lemma DoomedExactly(run: seq<Event>)
    requires Runs(START, run)
    ensures var s := After(START, run);
      Doomed(s) <==> s.reader.pending.Some? && s.reader.pending.value.id in s.forgotten
  {
    RunAccounted(START, run);
    var s := After(START, run);
    assert forall id :: id in s.minted ==> WasAssigned(id, s.next);
  }

  /** No pane is detached while frames are held for it. */
  predicate Careful(s: State, e: Event) {
    Enabled(s, e) && (e.Forget? ==> !HeldFor(s.reader, s.table.byHandle[e.session]))
  }

  predicate CarefulRuns(s: State, run: seq<Event>)
    decreases |run|
  {
    run == [] || (Careful(s, run[0]) && CarefulRuns(Step(s, run[0]), run[1..]))
  }

  ghost predicate HeldIsLive(s: State) {
    s.reader.pending.Some? ==> s.reader.pending.value.id !in s.forgotten
  }

  lemma {:induction false} CarefulKeeps(s: State, run: seq<Event>)
    requires Accounted(s) && HeldIsLive(s) && CarefulRuns(s, run)
    ensures Runs(s, run) && Accounted(After(s, run)) && HeldIsLive(After(s, run))
    decreases |run|
  {
    if run != [] {
      StepAccounted(s, run[0]);
      CarefulStep(s, run[0]);
      CarefulKeeps(Step(s, run[0]), run[1..]);
    }
  }

  lemma CarefulStep(s: State, e: Event)
    requires Accounted(s) && HeldIsLive(s) && Careful(s, e)
    ensures HeldIsLive(Step(s, e))
  {
  }

  /** Then nothing is ever held for good: what is held is released by its own answer. */
  lemma CarefulNeverDooms(run: seq<Event>)
    requires CarefulRuns(START, run)
    ensures Runs(START, run)
    ensures var s := After(START, run);
      !Doomed(s) && (s.reader.pending.Some? ==>
        s.reader.pending.value.id in s.answers || s.reader.pending.value.id in s.table.byStream)
  {
    CarefulKeeps(START, run);
    DoomedExactly(run);
  }

  // ----- A frame under an id that was never handed out -----

  /**
    * Were such a frame to arrive, in any run: it drops the connection, unless its id is the very next one and nothing
    * is held; then it is held.
    */
  lemma BogusExactly(run: seq<Event>, f: Frame)
    requires Runs(START, run) && f.kind != Credit && f.stream !in After(START, run).minted && f.stream != StreamIds.RESERVED
    ensures var s := After(START, run);
      var routed := RouteOrHold(s.table, s.reader, f);
      && (routed == Drop <==> f.stream != s.table.next || s.reader.pending.Some?)
      && (routed != Drop ==> f.stream == s.next && routed == Continue(s.reader.(pending := Some(Pending(f.stream, [f])))))
  {
    RunAccounted(START, run);
    var s := After(START, run);
    assert !WasAssigned(f.stream, s.next);
    assert f.stream !in s.table.byStream && f.stream !in s.reader.attached;
  }

  /** And whichever session is given that id next has the frame as its first. */
  lemma BogusIsDelivered(run: seq<Event>, f: Frame, session: Session)
    requires Runs(START, run) && f.kind != Credit && f.stream == After(START, run).next
    requires f.stream == After(START, run).table.next && After(START, run).reader.pending.None?
    ensures var s := After(START, run);
      var held := RouteOrHold(s.table, s.reader, f);
      held.Continue? && Settle(s.table.Remember(f.stream, session), held.reader).out == s.reader.out + [f]
  {
    RunKnown(START, run);
    BogusExactly(run, f);
  }

  /** Were a credit frame to arrive at the daemon, in any run: what becomes of it, by whether its id was handed out. */
  lemma CreditExactly(run: seq<Event>, id: StreamId)
    requires Runs(START, run)
    ensures var s := After(START, run);
      var verdict := CreditVerdict(s.(credits := [id]));
      && (verdict == Routed <==> id in s.sinks)
      && (verdict == Discarded <==> id in s.minted && id !in s.sinks)
      && (verdict == Dropped <==> id !in s.minted)
  {
    RunKnown(START, run);
  }

  // ----- A pane that is detached -----

  /**
    * Until the reader has been told of a detach it is going to be, and so is the daemon; and what has been handed
    * over was of a pane the reader has open, or of one that has been detached.
    */
  ghost predicate Told(s: State) {
    && s.forgotten * s.reader.attached <= s.signals <= s.forgotten
    && s.forgotten * s.sinks <= s.requests <= s.forgotten
    && forall f :: f in s.reader.out && f.kind != Credit ==> f.stream in s.reader.attached || f.stream in s.forgotten
  }

  lemma StepTold(s: State, e: Event)
    requires Accounted(s) && Told(s) && Enabled(s, e)
    ensures Told(Step(s, e))
  {
    match e
    case Attach(_) => assert s.next !in s.minted;
    case Forget(_) => ForgetTold(s, e);
    case RouteNext => RouteTold(s);
    case SettleHeld => SettleTold(s);
    case _ =>
  }

  lemma ForgetTold(s: State, e: Event)
    requires Accounted(s) && Told(s) && Enabled(s, e) && e.Forget?
    ensures Told(Step(s, e))
  {
  }

  lemma RouteTold(s: State)
    requires Accounted(s) && Told(s) && Enabled(s, RouteNext)
    ensures Told(Step(s, RouteNext))
  {
    var n := Step(s, RouteNext);
    assert n.forgotten == s.forgotten && n.signals == s.signals && n.sinks == s.sinks && n.requests == s.requests;
    AttachedGrows(s, RouteNext);
    if RouteOrHold(s.table, s.reader, s.buffer[0]).Continue? {
      OutIsOpen(s.table, s.reader, s.buffer[0], s.forgotten);
    }
  }

  /** Whatever a frame adds to what has been handed over, its pane is open then. */
  lemma OutIsOpen(t: Table, r: Reader, f: Frame, forgotten: set<StreamId>)
    requires RouteOrHold(t, r, f).Continue?
    requires t.next !in t.byStream
    requires forall g :: g in r.out && g.kind != Credit ==> g.stream in r.attached || g.stream in forgotten
    ensures var n := RouteOrHold(t, r, f).reader;
      && r.attached <= n.attached
      && forall g :: g in n.out && g.kind != Credit ==> g.stream in n.attached || g.stream in forgotten
  {
    assert forall g :: g in r.out + [f] <==> g in r.out || g == f;
  }

  lemma SettleTold(s: State)
    requires Accounted(s) && Told(s) && Enabled(s, SettleHeld)
    ensures Told(Step(s, SettleHeld))
  {
    AttachedGrows(s, SettleHeld);
    var held, n := s.reader.pending.value, Step(s, SettleHeld);
    assert forall g :: g in n.reader.out <==> g in s.reader.out || g in held.frames;
  }

  lemma {:induction false} RunTold(s: State, run: seq<Event>)
    requires Accounted(s) && Told(s) && Runs(s, run)
    ensures Accounted(After(s, run)) && Told(After(s, run))
    decreases |run|
  {
    if run != [] {
      StepAccounted(s, run[0]);
      StepTold(s, run[0]);
      RunTold(Step(s, run[0]), run[1..]);
    }
  }

  /** The frame at the front is this stream's, and nothing is held for it. */
  predicate ArrivesFor(s: State, id: StreamId) {
    s.buffer != [] && s.buffer[0].stream == id && s.buffer[0].kind != Credit && !HeldFor(s.reader, id)
  }

  /**
    * In every run a detach is told to both sides: a pane that has been detached is one the reader will be told of, or
    * no longer has open, and one the daemon will be told of, or no longer sends to. Once both know, nothing can be sent
    * under its id, and what still arrives under it is thrown away.
    */
  lemma DetachIsTold(run: seq<Event>, id: StreamId)
    requires Runs(START, run) && id in After(START, run).forgotten
    ensures var s := After(START, run);
      && (id in s.reader.attached ==> id in s.signals)
      && (id in s.sinks ==> id in s.requests)
      && (id !in s.requests ==> forall f: Frame :: f.stream == id ==> !Enabled(s, Send(f)))
      && (id !in s.signals && ArrivesFor(s, id) ==> ThrownAway(s))
  {
    RunTold(START, run);
    ToldHere(After(START, run), id);
  }

  lemma ToldHere(s: State, id: StreamId)
    requires Accounted(s) && Told(s) && id in s.forgotten
    ensures id in s.reader.attached ==> id in s.signals
    ensures id in s.sinks ==> id in s.requests
    ensures id !in s.requests ==> forall f: Frame :: f.stream == id ==> !Enabled(s, Send(f))
    ensures id !in s.signals && ArrivesFor(s, id) ==> ThrownAway(s)
  {
    if s.buffer != [] {
      assert s.buffer[0] in s.buffer;
      ThrownHere(s);
    }
  }

  /** What is waiting to be told can be told, and telling it leaves the pane closed at that side. */
  lemma TellingCloses(s: State, id: StreamId)
    requires !s.down
    ensures id in s.signals ==> Enabled(s, TellReader(id)) && id !in Step(s, TellReader(id)).reader.attached
                                && Step(s, TellReader(id)).signals == s.signals - {id}
    ensures id in s.requests ==> Enabled(s, TellDaemon(id)) && id !in Step(s, TellDaemon(id)).sinks
                                 && Step(s, TellDaemon(id)).requests == s.requests - {id}
  {
  }

  lemma {:induction false} OpenUntilTold(s: State, run: seq<Event>, id: StreamId)
    requires id in s.reader.attached && Runs(s, run) && TellReader(id) !in run
    ensures id in After(s, run).reader.attached
    decreases |run|
  {
    if run != [] {
      assert run == [run[0]] + run[1..];
      assert run[0] != TellReader(id) && TellReader(id) !in run[1..];
      OpenUntilTold(Step(s, run[0]), run[1..], id);
    }
  }

  /**
    * A pane that has reported what it rendered is open from then on, whether or not a frame of it had been seen, and
    * every frame of it is handed over, detached or not, until the reader is told.
    */
  lemma ReportOpens(s: State, id: StreamId, run: seq<Event>)
    requires Enabled(s, Ack(id)) && Runs(Step(s, Ack(id)), run) && TellReader(id) !in run
    ensures var n := After(Step(s, Ack(id)), run);
      ArrivesFor(n, id) && Enabled(n, RouteNext) ==>
        Step(n, RouteNext).reader.out == n.reader.out + [n.buffer[0]] && !Step(n, RouteNext).down
  {
    OpenUntilTold(Step(s, Ack(id)), run, id);
  }
}
