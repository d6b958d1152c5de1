/** Runs that stop: the flood that drops a connection, and the batches that never fill. */
module CreditStalls {
  import opened Prelude
  import opened Credit
  import opened CreditRuns
  import opened Sums

  // ----- Composing runs -----

  lemma {:induction false} RunsTwice(l: Link, a: seq<Event>, b: seq<Event>)
    requires Runs(l, a) && Runs(After(l, a), b)
    ensures Runs(l, a + b) && After(l, a + b) == After(After(l, a), b)
    decreases |a|
  {
    if a == [] {
      assert a + b == b;
    } else {
      assert (a + b)[1..] == a[1..] + b;
      RunsTwice(Next(l, a[0]), a[1..], b);
    }
  }

  lemma RunsCons(l: Link, e: Event, run: seq<Event>)
    requires Enabled(l, e) && Runs(Next(l, e), run)
    ensures Runs(l, [e] + run) && After(l, [e] + run) == After(Next(l, e), run)
  {
    assert ([e] + run)[1..] == run;
  }

  lemma RunsSnoc(l: Link, run: seq<Event>, e: Event)
    requires Runs(l, run) && Enabled(After(l, run), e)
    ensures Runs(l, run + [e]) && After(l, run + [e]) == Next(After(l, run), e)
  {
    var m := After(l, run);
    assert [e][1..] == [] && Runs(Next(m, e), []);
    RunsTwice(l, run, [e]);
  }

  /** One output frame sent and delivered over a wire with nothing on it. */
  function Delivered(l: Link, id: Id, n: U32): Link
    requires id in l.sinks && id in l.tallies && Seen(l, id).Refusal(id, n).None?
  {
    l.(sinks := l.sinks[id := l.sinks[id] - n - l.header],
       tallies := l.tallies[id := l.tallies[id].(frames := l.tallies[id].frames + 1)],
       ledger := Seen(l, id).Receive(id, n))
  }

  lemma DeliverSteps(l: Link, run: seq<Event>, id: Id, n: U32)
    requires Runs(l, run)
    requires var m := After(l, run);
      && m.wire == [] && id in m.sinks && id in m.tallies && id !in m.retired && 0 < m.sinks[id]
      && n <= m.ledger.window.chunk && Seen(m, id).Refusal(id, n).None?
    ensures var more := run + [Send(id, n, true)] + [Arrive];
      Runs(l, more) && After(l, more) == Delivered(After(l, run), id, n)
  {
    var m := After(l, run);
    RunsSnoc(l, run, Send(id, n, true));
    var sent := Next(m, Send(id, n, true));
    assert sent.wire == [Packet(id, n, true)] && sent.wire[1..] == [];
    assert Seen(sent, id) == Seen(m, id);
    RunsSnoc(l, run + [Send(id, n, true)], Arrive);
    assert sent.tallies[id := sent.tallies[id]] == sent.tallies;
  }

  // ----- The overshoot under the default window -----

  /** Two panes: the second has printed one byte, the first floods, and nothing is painted yet. */
  function FloodRun(k: nat): seq<Event> {
    if k == 0 then [Open(1), Open(2), Send(2, 1, true), Arrive]
    else FloodRun(k - 1) + [Send(1, DEFAULT.chunk, true)] + [Arrive]
  }

  function FloodState(k: nat): Link
    requires k <= 10
  {
    var spent, opening := k * DEFAULT.chunk, DEFAULT.perStreamInitial;
    var second := map[2 := StreamCredit(opening - 1, 1, 0)];
    Link(0, map[1 := opening - spent, 2 := opening - 1], [],
         Ledger(DEFAULT, if k == 0 then second else second[1 := StreamCredit(opening - spent, spent, 0)],
                DEFAULT.totalInitial - 1 - spent, 0),
         {}, [], map[1 := Tally(k, 0), 2 := Tally(1, 0)])
  }

  lemma FloodStarts()
    ensures Runs(Start(DEFAULT, 0), FloodRun(0)) && After(Start(DEFAULT, 0), FloodRun(0)) == FloodState(0)
  {
    var l := Start(DEFAULT, 0);
    var one := Next(l, Open(1));
    var two := Next(one, Open(2));
    var three := Next(two, Send(2, 1, true));
    assert Next(three, Arrive) == FloodState(0);
    assert Runs(Next(three, Arrive), []);
    RunsCons(three, Arrive, []);
    RunsCons(two, Send(2, 1, true), [Arrive] + []);
    RunsCons(one, Open(2), [Send(2, 1, true)] + ([Arrive] + []));
    RunsCons(l, Open(1), [Open(2)] + ([Send(2, 1, true)] + ([Arrive] + [])));
    assert [Open(1)] + ([Open(2)] + ([Send(2, 1, true)] + ([Arrive] + []))) == FloodRun(0);
  }

  lemma FloodStep(k: nat)
    requires 0 < k <= 10
    ensures var l := FloodState(k - 1);
      Seen(l, 1).Refusal(1, DEFAULT.chunk).None? && Delivered(l, 1, DEFAULT.chunk) == FloodState(k)
  {
    var l := FloodState(k - 1);
    var m := Delivered(l, 1, DEFAULT.chunk);
    assert m.sinks == FloodState(k).sinks;
    assert m.ledger.streams == FloodState(k).ledger.streams;
    assert m.tallies == FloodState(k).tallies;
  }

  lemma {:induction false} FloodReaches(k: nat)
    requires k <= 10
    ensures Runs(Start(DEFAULT, 0), FloodRun(k)) && After(Start(DEFAULT, 0), FloodRun(k)) == FloodState(k)
  {
    if k == 0 {
      FloodStarts();
    } else {
      FloodReaches(k - 1);
      FloodStep(k);
      DeliverSteps(Start(DEFAULT, 0), FloodRun(k - 1), 1, DEFAULT.chunk);
    }
  }

  /**
    * The defaults, no misbehaviour anywhere: eleven chunks into a flood the daemon has overshot by 16 KiB,
    * the reader's gate is open because another pane has room, and the next frame drops the connection.
    */
  lemma FloodDropsTheConnection()
    ensures var run := FloodRun(10) + [Send(1, DEFAULT.chunk, true)];
      && Runs(Start(DEFAULT, 0), run)
      && var l := After(Start(DEFAULT, 0), run);
      && 1 in l.sinks && l.sinks[1] == -16 * KIB
      && !l.ledger.IsBlocked()
      && l.wire != [] && Refused(l)
  {
    FloodReaches(10);
    RunsSnoc(Start(DEFAULT, 0), FloodRun(10), Send(1, DEFAULT.chunk, true));
    var l := After(Start(DEFAULT, 0), FloodRun(10) + [Send(1, DEFAULT.chunk, true)]);
    assert l.ledger.Available(2) >= DEFAULT.chunk;
  }

  // ----- Painting a byte at a time -----

  /** Runs of output only, with no idle flush and no pane closed. */
  predicate Plain(run: seq<Event>) {
    forall e :: e in run ==> e.Open? || (e.Send? && e.spends) || e.Arrive? || e.Paint? || e.AckLands?
  }

  /** Quiet: nothing is in flight, and everything that arrived was output and has been painted. */
  predicate Quiet(l: Link) {
    && l.header == 0 && l.wire == [] && l.acks == [] && l.retired == {}
    && (forall id :: id in l.tallies ==> l.tallies[id].extra == 0)
    && (forall id :: id in l.ledger.streams ==> id in l.tallies && l.ledger.streams[id].unrendered == 0)
  }

  /** `k` more bytes of `id` sent, delivered and painted, and none of them acked. */
  function Painted(l: Link, id: Id, k: nat): Link
    requires id in l.sinks && id in l.tallies && Seen(l, id).streams[id].credit >= k
    requires l.ledger.totalCredit >= k
    requires Seen(l, id).streams[id].ungranted + k <= U32_MAX && l.ledger.totalUngranted + k <= U32_MAX
  {
    if k == 0 then l else
      var e := Seen(l, id).streams[id];
      l.(sinks := l.sinks[id := l.sinks[id] - k],
         tallies := l.tallies[id := l.tallies[id].(frames := l.tallies[id].frames + k)],
         ledger := l.ledger.(
           streams := l.ledger.streams[id := e.(credit := e.credit - k, ungranted := e.ungranted + k)],
           totalCredit := l.ledger.totalCredit - k,
           totalUngranted := l.ledger.totalUngranted + k))
  }

  /** What painting `k` bytes without filling a batch needs. */
  predicate Roomy(l: Link, id: Id, k: nat) {
    && Quiet(l) && id in l.sinks && id in l.tallies && 0 < l.ledger.window.chunk
    && k <= l.sinks[id] && k <= l.ledger.totalCredit
    && var e := Seen(l, id).streams[id];
    && e.unrendered == 0 && k <= e.credit
    && (k == 0 || e.ungranted + k < l.ledger.window.ackBatch)
    && l.ledger.totalUngranted + k <= U32_MAX
  }

  lemma OneByte(l: Link, id: Id, run: seq<Event>)
    requires Runs(l, run)
    requires Roomy(After(l, run), id, 1)
    ensures var more := run + [Send(id, 1, true)] + [Arrive] + [Paint(id, 1)];
      Runs(l, more) && After(l, more) == Painted(After(l, run), id, 1)
  {
    DeliverSteps(l, run, id, 1);
    RunsSnoc(l, run + [Send(id, 1, true)] + [Arrive], Paint(id, 1));
  }

  lemma PaintedRoomy(l: Link, id: Id, k: nat)
    requires Roomy(l, id, k) && 0 < k
    ensures Roomy(Painted(l, id, k - 1), id, 1) && Quiet(Painted(l, id, k))
    ensures Painted(Painted(l, id, k - 1), id, 1) == Painted(l, id, k)
  {
    var m := Painted(l, id, k - 1);
    var n := Painted(m, id, 1);
    assert n.sinks == Painted(l, id, k).sinks;
    assert n.tallies == Painted(l, id, k).tallies;
    assert n.ledger.streams == Painted(l, id, k).ledger.streams;
  }

  lemma {:induction false} Bytes(l: Link, id: Id, k: nat) returns (run: seq<Event>)
    requires Roomy(l, id, k)
    ensures Plain(run) && Runs(l, run) && After(l, run) == Painted(l, id, k) && Quiet(After(l, run))
  {
    run := [];
    if k > 0 {
      run := Bytes(l, id, k - 1);
      PaintedRoomy(l, id, k);
      OneByte(l, id, run);
      run := run + [Send(id, 1, true)] + [Arrive] + [Paint(id, 1)];
    }
  }

  // ----- One stream, acked by the batch alone -----

  /** The daemon may not send, nothing is on its way, and the client has no batch to ack. */
  predicate StuckStream(l: Link, id: Id) {
    && l.wire == [] && l.acks == [] && id in l.sinks && id in l.tallies && l.sinks[id] <= 0
    && (id in l.ledger.streams ==>
          Unpainted(l, id) == 0 && !(l.ledger.BatchFull(id) && l.ledger.Owing(id)))
  }

  ghost predicate StreamCanStick(w: CreditWindow, id: Id) {
    exists run :: Plain(run) && Runs(Start(w, 0), run) && StuckStream(After(Start(w, 0), run), id)
  }

  /**
    * Whether batching alone can strand a stream: exactly when it opens with nothing, or with less than a
    * batch. Coherence does not ask either question.
    */
  lemma StreamSticksExactly(w: CreditWindow, id: Id)
    requires w.IsCoherent()
    ensures StreamCanStick(w, id) <==> w.perStreamInitial == 0 || w.perStreamInitial < w.ackBatch
  {
    if StreamCanStick(w, id) {
      var run :| Plain(run) && Runs(Start(w, 0), run) && StuckStream(After(Start(w, 0), run), id);
      PlainKeeps(w, run);
      FullAckRestores(w, 0, run, id);
      CreditIsConserved(w, run, id);
    }
    if w.perStreamInitial == 0 || w.perStreamInitial < w.ackBatch {
      var l := Start(w, 0);
      assert Runs(l, []) && After(l, []) == l;
      RunsSnoc(l, [], Open(id));
      var m := After(l, [] + [Open(id)]);
      var run := Bytes(m, id, w.perStreamInitial);
      RunsTwice(l, [] + [Open(id)], run);
      assert Plain([] + [Open(id)] + run);
      assert StuckStream(After(l, [] + [Open(id)] + run), id);
    }
  }

  /** A coherent window that opens with nothing, and one that opens with less than a batch. */
  lemma CoherentAndStuck()
    ensures var w := DEFAULT.(perStreamInitial := 0); w.IsCoherent() && StreamCanStick(w, 1)
    ensures var w := DEFAULT.(perStreamInitial := 64 * KIB); w.IsCoherent() && StreamCanStick(w, 1)
    ensures !StreamCanStick(DEFAULT, 1)
  {
    StreamSticksExactly(DEFAULT.(perStreamInitial := 0), 1);
    StreamSticksExactly(DEFAULT.(perStreamInitial := 64 * KIB), 1);
    StreamSticksExactly(DEFAULT, 1);
  }

  // ----- Many streams under one budget -----

  function Grants(streams: map<Id, StreamCredit>): map<Id, int> {
    map s | s in streams :: streams[s].ungranted as int
  }

  /** No stream has a batch waiting, and the shared budget is owed no more than the streams are. */
  ghost predicate NothingDue(l: Ledger) {
    && l.totalUngranted <= Sum(Grants(l.streams))
    && (forall id :: id in l.streams ==> !(l.BatchFull(id) && l.Owing(id)))
  }

  lemma GrantsUpdate(streams: map<Id, StreamCredit>, s: Id, e: StreamCredit)
    ensures Sum(Grants(streams[s := e]))
         == Sum(Grants(streams)) - (if s in streams then streams[s].ungranted else 0) + e.ungranted
    ensures Sum(Grants(streams)) >= 0 && Sum(Grants(streams[s := e])) >= 0
  {
    SumUpdate(Grants(streams), s, e.ungranted);
    assert Grants(streams)[s := e.ungranted] == Grants(streams[s := e]);
    SumNonNegative(Grants(streams));
    SumNonNegative(Grants(streams[s := e]));
  }

  lemma ReceiveLeavesNothingDue(l: Ledger, s: Id, n: U32)
    requires NothingDue(l) && l.Attach(s).Refusal(s, n).None?
    ensures NothingDue(l.Attach(s).Receive(s, n))
  {
    GrantsUpdate(l.streams, s, l.Attach(s).Receive(s, n).streams[s]);
    assert l.Attach(s).Receive(s, n).streams == l.streams[s := l.Attach(s).Receive(s, n).streams[s]];
  }

  lemma PaintLeavesNothingDue(l: Ledger, s: Id, n: U32)
    requires NothingDue(l) && l.Phantom(s, n).None? && l.streams[s].ungranted + n <= U32_MAX
    ensures var painted := l.Paint(s, n);
      NothingDue(if painted.BatchFull(s) && painted.Owing(s) then painted.Drain(s) else painted)
  {
    var painted := l.Paint(s, n);
    GrantsUpdate(l.streams, s, painted.streams[s]);
    if painted.BatchFull(s) && painted.Owing(s) {
      GrantsUpdate(painted.streams, s, painted.Drain(s).streams[s]);
    }
  }

  /** What a plain run keeps beside the books. */
  ghost predicate PlainBooks(l: Link) {
    Books(l) && NothingDue(l.ledger) && PlainLink(l)
  }

  /** Nothing but output is charged, and no stream has been left. */
  predicate PlainLink(l: Link) {
    && l.header == 0 && l.retired == {}
    && (forall id :: id in l.tallies ==> l.tallies[id].extra == 0)
    && (forall p :: p in l.wire ==> p.spends)
  }

  lemma PlainLinkKept(l: Link, e: Event)
    requires PlainLink(l) && Enabled(l, e) && Plain([e])
    ensures PlainLink(Next(l, e))
  {
    assert e in [e];
  }

  lemma PlainStep(l: Link, e: Event)
    requires PlainBooks(l) && Enabled(l, e) && Plain([e])
    ensures PlainBooks(Next(l, e))
  {
    assert e in [e];
    PlainLinkKept(l, e);
    StepKeeps(l, e);
    if e.Arrive? {
      ReceiveLeavesNothingDue(l.ledger, l.wire[0].id, l.wire[0].n);
    } else if e.Paint? {
      assert StreamBooks(l, e.id);
      PaintLeavesNothingDue(l.ledger, e.id, e.n);
    }
  }

  lemma {:induction false} PlainRun(l: Link, run: seq<Event>)
    requires PlainBooks(l) && Plain(run) && Runs(l, run)
    ensures PlainBooks(After(l, run)) && After(l, run).ledger.window == l.ledger.window
    decreases |run|
  {
    if run != [] {
      assert run[0] in run && Plain([run[0]]) && Plain(run[1..]);
      StepKeeps(l, run[0]);
      PlainStep(l, run[0]);
      PlainRun(Next(l, run[0]), run[1..]);
    }
  }

  lemma PlainKeeps(w: CreditWindow, run: seq<Event>)
    requires w.IsCoherent() && Plain(run) && Runs(Start(w, 0), run)
    ensures PlainBooks(After(Start(w, 0), run)) && After(Start(w, 0), run).ledger.window == w
  {
    StartKeeps(w, 0);
    SumZero(Grants(map[]));
    PlainRun(Start(w, 0), run);
  }

  /** The shared budget is spent, everything has been painted, and no stream has a batch to ack. */
  predicate StuckTotal(l: Link) {
    && Quiet(l) && l.ledger.totalCredit == 0
    && (forall id :: id in l.ledger.streams ==> !(l.ledger.BatchFull(id) && l.ledger.Owing(id)))
  }

  ghost predicate TotalCanStick(w: CreditWindow, n: nat) {
    exists run :: Plain(run) && Runs(Start(w, 0), run)
                  && StuckTotal(After(Start(w, 0), run)) && |After(Start(w, 0), run).tallies| == n
  }

  /** `n` streams have painted as much as they can without filling a batch, and `left` is unspent. */
  predicate Starved(w: CreditWindow, l: Link, n: nat, left: nat) {
    && l.ledger.window == w && l.ledger.totalCredit == left
    && (forall i: Id :: i in l.tallies <==> 1 <= i <= n) && |l.tallies| == n
  }

  lemma OpenOne(w: CreditWindow, l: Link, n: nat, left: nat)
    requires w.IsCoherent() && 0 < w.ackBatch && w.ackBatch - 1 <= w.perStreamInitial && n < U32_MAX
    requires Quiet(l) && PlainBooks(l) && Starved(w, l, n, left)
    ensures Enabled(l, Open(n + 1)) && PlainBooks(Next(l, Open(n + 1)))
    ensures Roomy(Next(l, Open(n + 1)), n + 1, Min(w.ackBatch - 1, left))
    ensures Next(l, Open(n + 1)).tallies.Keys == l.tallies.Keys + {n + 1}
  {
    assert Plain([Open(n + 1)]);
    PlainStep(l, Open(n + 1));
    UnrenderedFits(l.ledger);
  }

  lemma StarveOne(w: CreditWindow, l: Link, n: nat, left: nat) returns (more: seq<Event>)
    requires w.IsCoherent() && 0 < w.ackBatch && w.ackBatch - 1 <= w.perStreamInitial && n < U32_MAX
    requires Quiet(l) && PlainBooks(l) && Starved(w, l, n, left)
    ensures Plain(more) && Runs(l, more)
    ensures Quiet(After(l, more)) && Starved(w, After(l, more), n + 1, left - Min(w.ackBatch - 1, left))
  {
    var m, k := Next(l, Open(n + 1)), Min(w.ackBatch - 1, left);
    OpenOne(w, l, n, left);
    var bytes := Bytes(m, n + 1, k);
    PaintedStarved(w, l, m, n, k, left);
    RunsCons(l, Open(n + 1), bytes);
    more := [Open(n + 1)] + bytes;
  }

  lemma PaintedStarved(w: CreditWindow, l: Link, m: Link, n: nat, k: nat, left: nat)
    requires n < U32_MAX && Starved(w, l, n, left) && m.tallies.Keys == l.tallies.Keys + {n + 1}
    requires m.ledger.window == w && m.ledger.totalCredit == left && Roomy(m, n + 1, k)
    ensures Starved(w, Painted(m, n + 1, k), n + 1, left - k)
  {
    var p := Painted(m, n + 1, k);
    assert p.tallies.Keys == m.tallies.Keys && |p.tallies| == |p.tallies.Keys|;
    assert |l.tallies.Keys| == n && n + 1 !in l.tallies.Keys;
  }

  lemma {:induction false} Starve(w: CreditWindow, n: nat) returns (run: seq<Event>, left: nat)
    requires w.IsCoherent() && 0 < w.ackBatch && w.ackBatch - 1 <= w.perStreamInitial && n <= U32_MAX
    ensures Plain(run) && Runs(Start(w, 0), run)
    ensures var l := After(Start(w, 0), run); Quiet(l) && PlainBooks(l) && Starved(w, l, n, left)
    ensures n * (w.ackBatch - 1) >= w.totalInitial - left && (left > 0 ==> n * (w.ackBatch - 1) == w.totalInitial - left)
  {
    if n == 0 {
      run, left := [], w.totalInitial;
      PlainKeeps(w, run);
    } else {
      var shorter, before := Starve(w, n - 1);
      var more := StarveOne(w, After(Start(w, 0), shorter), n - 1, before);
      RunsTwice(Start(w, 0), shorter, more);
      PlainKeeps(w, shorter + more);
      run, left := shorter + more, before - Min(w.ackBatch - 1, before);
      OneMore(n, w.ackBatch - 1);
    }
  }

  lemma OneMore(n: int, b: int)
    ensures n * b == (n - 1) * b + b
  {
  }

  /** A spent budget is being held by the streams, less than a batch each. */
  lemma StuckHoldsTheBudget(l: Ledger, ids: set<Id>)
    requires SharedBooks(l) && NothingDue(l) && l.totalCredit == 0 && 0 < l.window.ackBatch
    requires l.streams.Keys <= ids
    requires forall id :: id in l.streams ==> l.streams[id].unrendered == 0
    ensures l.window.totalInitial <= |ids| * (l.window.ackBatch - 1)
  {
    var held := Grants(l.streams);
    SumZero(Entries(l.streams));
    forall id | id in held ensures held[id] <= l.window.ackBatch - 1 {
      assert id in l.streams;
    }
    SumAtMost(held, l.window.ackBatch - 1);
    Fewer(held.Keys, ids);
    MulMonotone(|held|, |ids|, l.window.ackBatch - 1);
  }

  lemma MulMonotone(a: int, b: int, c: nat)
    requires a <= b
    ensures a * c <= b * c
  {
  }

  /**
    * Whether batching alone can strand the shared budget: exactly when `n` streams, each one byte short
    * of a batch, can hold all of it.
    */
  lemma TotalSticksExactly(w: CreditWindow, n: nat)
    requires w.IsCoherent() && 0 < w.ackBatch && w.ackBatch - 1 <= w.perStreamInitial && n <= U32_MAX
    ensures TotalCanStick(w, n) <==> n * (w.ackBatch - 1) >= w.totalInitial
  {
    if TotalCanStick(w, n) {
      var run :| Plain(run) && Runs(Start(w, 0), run)
                 && StuckTotal(After(Start(w, 0), run)) && |After(Start(w, 0), run).tallies| == n;
      PlainKeeps(w, run);
      var l := After(Start(w, 0), run);
      StuckHoldsTheBudget(l.ledger, l.tallies.Keys);
    }
    if n * (w.ackBatch - 1) >= w.totalInitial {
      var run, left := Starve(w, n);
      assert StuckTotal(After(Start(w, 0), run));
    }
  }

  lemma Fewer(a: set<Id>, b: set<Id>)
    requires a <= b
    ensures |a| <= |b|
  {
    assert |b| == |a| + |b - a| by { assert b == a + (b - a); }
  }

  /** Under the defaults ten streams never strand the budget, and eleven can. */
  lemma TenAreSafeElevenAreNot()
    ensures !TotalCanStick(DEFAULT, 10) && TotalCanStick(DEFAULT, 11)
  {
    TotalSticksExactly(DEFAULT, 10);
    TotalSticksExactly(DEFAULT, 11);
  }

  /** The idle flush is what prevents both: one flush gives the whole budget back, and its ack frees the stream. */
  lemma FlushFrees(l: Link, id: Id)
    requires PlainBooks(l) && Quiet(l) && l.ledger.Owing(id)
    ensures Next(l, Flush(id)).ledger.totalCredit == l.ledger.window.totalInitial
    ensures Runs(l, [Flush(id), AckLands])
    ensures var m := After(l, [Flush(id), AckLands]);
      id in m.sinks && m.sinks[id] == l.ledger.window.perStreamInitial
  {
    assert StreamBooks(l, id);
    StepKeeps(l, Flush(id));
    DrainKeeps(l, id);
    SumZero(Entries(l.ledger.streams));
    UnrenderedFits(l.ledger);
    var m := Next(l, Flush(id));
    assert StreamBooks(m, id);
    AckFits(m);
    assert Runs(l, []) && After(l, []) == l;
    RunsSnoc(l, [], Flush(id));
    RunsSnoc(l, [] + [Flush(id)], AckLands);
    assert [] + [Flush(id)] + [AckLands] == [Flush(id), AckLands];
  }
}
