/**
  * The two ends of the credit window, run against each other: a sink per stream on the daemon, one
  * ledger on the client, and a queue each way that delivers in order.
  */
module CreditRuns {
  import opened Prelude
  import opened Credit
  import opened Sums

  /** A frame on its way to the client: `spends` says it is output, which the daemon charges for. */
  datatype Packet = Packet(id: Id, n: U32, spends: bool)

  datatype Ack = Ack(id: Id, n: U32)

  datatype Link = Link(
    header: nat,               // what the daemon charges per output frame besides its payload: 0
    sinks: map<Id, int>,       // the daemon's allowances
    wire: seq<Packet>,
    ledger: Ledger,
    retired: set<Id>,          // ids the client has detached
    acks: seq<Ack>,
    tallies: map<Id, Tally>     // every stream ever opened
  )

  /** Per stream: output frames sent, and bytes of other frames the ledger has been charged for. */
  datatype Tally = Tally(frames: nat, extra: nat)

  datatype Event =
    | Open(id: Id)
    | Send(id: Id, n: U32, spends: bool)
    | Arrive
    | Paint(id: Id, n: U32)
    | Flush(id: Id)
    | AckLands
    | ClientDetach(id: Id)
    | DaemonDetach(id: Id)

  function Start(w: CreditWindow, header: nat): Link {
    Link(header, map[], [], Ledger(w, map[], w.totalInitial, 0), {}, [], map[])
  }

  /** The ledger as the reader sees it when a frame of `id` comes up: attached on first sight. */
  function Seen(l: Link, id: Id): Ledger {
    l.ledger.Attach(id)
  }

  /** Whether delivering the packet at the front would break the window and drop the connection. */
  predicate Refused(l: Link)
    requires l.wire != []
  {
    var p := l.wire[0];
    p.id !in l.retired && Seen(l, p.id).Refusal(p.id, p.n).Some?
  }

  /** Bytes of output the renderer has been given and not reported. */
  function Unpainted(l: Link, id: Id): int
    requires id in l.ledger.streams && id in l.tallies
  {
    l.ledger.streams[id].unrendered - l.tallies[id].extra
  }

  predicate Enabled(l: Link, e: Event) {
    match e
    case Open(id) => id !in l.tallies
    case Send(id, n, spends) =>
      id in l.sinks && id in l.tallies && n <= l.ledger.window.chunk && (spends ==> l.sinks[id] > 0)
    case Arrive => l.wire != [] && l.wire[0].id in l.tallies && !Refused(l)
    case Paint(id, n) => id in l.ledger.streams && id in l.tallies && n <= Unpainted(l, id)
    case Flush(id) => l.ledger.Owing(id)
    case AckLands => l.acks != []
    case ClientDetach(id) => id in l.tallies && id !in l.retired
    case DaemonDetach(id) => id in l.sinks && id in l.retired
  }

  function Drained(l: Link, id: Id): Link
    requires l.ledger.Owing(id)
  {
    var bytes := l.ledger.AckBytes(id);
    l.(ledger := l.ledger.Drain(id), acks := if bytes == 0 then l.acks else l.acks + [Ack(id, bytes)])
  }

  function Next(l: Link, e: Event): Link
    requires Enabled(l, e)
  {
    match e
    case Open(id) =>
      l.(sinks := l.sinks[id := l.ledger.window.perStreamInitial], tallies := l.tallies[id := Tally(0, 0)])
    case Send(id, n, spends) =>
      var m := l.(wire := l.wire + [Packet(id, n, spends)]);
      var t := l.tallies[id];
      if spends
      then m.(sinks := l.sinks[id := l.sinks[id] - n - l.header], tallies := l.tallies[id := t.(frames := t.frames + 1)])
      else m
    case Arrive =>
      var p := l.wire[0];
      var m := l.(wire := l.wire[1..]);
      var t := l.tallies[p.id];
      if p.id in l.retired then m
      else
        m.(ledger := Seen(l, p.id).Receive(p.id, p.n),
           tallies := l.tallies[p.id := if p.spends then t else t.(extra := t.extra + p.n)])
    case Paint(id, n) =>
      var m := l.(ledger := l.ledger.Paint(id, n));
      if m.ledger.BatchFull(id) && m.ledger.Owing(id) then Drained(m, id) else m
    case Flush(id) => Drained(l, id)
    case AckLands =>
      var a := l.acks[0];
      var m := l.(acks := l.acks[1..]);
      if a.id in l.sinks then m.(sinks := l.sinks[a.id := Replenished(l.ledger.window, l.sinks[a.id], a.n)]) else m
    case ClientDetach(id) => l.(ledger := l.ledger.Detach(id), retired := l.retired + {id})
    case DaemonDetach(id) => l.(sinks := l.sinks - {id})
  }

  // ----- Totals -----

  function OnWire(wire: seq<Packet>, id: Id): nat {
    if wire == [] then 0
    else (if wire[0].id == id && wire[0].spends then wire[0].n else 0) + OnWire(wire[1..], id)
  }

  function InAcks(acks: seq<Ack>, id: Id): nat {
    if acks == [] then 0 else (if acks[0].id == id then acks[0].n else 0) + InAcks(acks[1..], id)
  }

  lemma {:induction false} OnWireSnoc(wire: seq<Packet>, p: Packet, id: Id)
    ensures OnWire(wire + [p], id) == OnWire(wire, id) + if p.id == id && p.spends then p.n else 0
  {
    if wire != [] {
      OnWireSnoc(wire[1..], p, id);
      assert (wire + [p])[1..] == wire[1..] + [p];
    }
  }

  lemma {:induction false} InAcksSnoc(acks: seq<Ack>, a: Ack, id: Id)
    ensures InAcks(acks + [a], id) == InAcks(acks, id) + if a.id == id then a.n else 0
  {
    if acks != [] {
      InAcksSnoc(acks[1..], a, id);
      assert (acks + [a])[1..] == acks[1..] + [a];
    }
  }

  function Entries(streams: map<Id, StreamCredit>): map<Id, int> {
    map s | s in streams :: streams[s].unrendered as int
  }

  ghost function Unrendered(streams: map<Id, StreamCredit>): int {
    Sum(Entries(streams))
  }

  lemma UnrenderedUpdate(streams: map<Id, StreamCredit>, s: Id, e: StreamCredit)
    ensures Unrendered(streams[s := e])
         == Unrendered(streams) - (if s in streams then streams[s].unrendered else 0) + e.unrendered
  {
    SumUpdate(Entries(streams), s, e.unrendered);
    assert Entries(streams)[s := e.unrendered] == Entries(streams[s := e]);
  }

  lemma UnrenderedRemove(streams: map<Id, StreamCredit>, s: Id)
    requires s in streams
    ensures Unrendered(streams - {s}) == Unrendered(streams) - streams[s].unrendered
  {
    SumRemove(Entries(streams), s);
    assert Entries(streams) - {s} == Entries(streams - {s});
  }

  // ----- What every run keeps -----

  /** One stream the client still holds: nothing it was granted is unaccounted for. */
  ghost predicate StreamBooks(l: Link, id: Id) {
    && id in l.tallies && id in l.sinks
    && var e := Seen(l, id).streams[id];
    && e.credit + e.unrendered + e.ungranted == l.ledger.window.perStreamInitial
    && l.tallies[id].extra <= e.unrendered
    && -(l.ledger.window.chunk + l.header) < l.sinks[id]
    && e.credit + l.tallies[id].extra
       == l.sinks[id] + OnWire(l.wire, id) + InAcks(l.acks, id) + l.header * l.tallies[id].frames
  }

  /** The shared budget, which outlives the streams that spent it. */
  ghost predicate SharedBooks(l: Ledger) {
    l.totalCredit + l.totalUngranted + Unrendered(l.streams) == l.window.totalInitial
  }

  ghost predicate Books(l: Link) {
    && l.ledger.window.IsCoherent()
    && SharedBooks(l.ledger)
    && l.ledger.streams.Keys <= l.tallies.Keys - l.retired
    && l.retired <= l.tallies.Keys
    && (forall p :: p in l.wire ==> p.id in l.tallies)
    && (forall a :: a in l.acks ==> a.id in l.tallies)
    && (forall id :: id in l.tallies && id !in l.retired ==> StreamBooks(l, id))
  }

  lemma UnrenderedFits(l: Ledger)
    requires SharedBooks(l)
    ensures Unrendered(l.streams) >= 0
    ensures forall s :: s in l.streams ==> l.streams[s].unrendered <= Unrendered(l.streams)
  {
    SumNonNegative(Entries(l.streams));
    forall s | s in l.streams ensures l.streams[s].unrendered <= Unrendered(l.streams) {
      assert Entries(l.streams)[s] == l.streams[s].unrendered;
    }
  }

  lemma AttachKeepsShared(l: Ledger, s: Id)
    requires SharedBooks(l)
    ensures SharedBooks(l.Attach(s))
  {
    if s !in l.streams {
      UnrenderedUpdate(l.streams, s, StreamCredit(l.window.perStreamInitial, 0, 0));
    }
  }

  lemma ReceiveKeepsShared(l: Ledger, s: Id, n: U32)
    requires SharedBooks(l) && l.Refusal(s, n).None?
    requires l.streams[s].credit + l.streams[s].unrendered <= U32_MAX
    ensures SharedBooks(l.Receive(s, n))
  {
    UnrenderedUpdate(l.streams, s, l.Receive(s, n).streams[s]);
  }

  lemma PaintKeepsShared(l: Ledger, s: Id, n: U32)
    requires SharedBooks(l) && l.Phantom(s, n).None?
    ensures SharedBooks(l.Paint(s, n))
  {
    UnrenderedFits(l);
    UnrenderedUpdate(l.streams, s, l.Paint(s, n).streams[s]);
  }

  lemma DrainKeepsShared(l: Ledger, s: Id)
    requires SharedBooks(l) && l.window.totalInitial <= l.window.totalMax && l.Owing(s)
    ensures SharedBooks(l.Drain(s))
  {
    UnrenderedFits(l);
    UnrenderedUpdate(l.streams, s, l.Drain(s).streams[s]);
  }

  /** Closing a stream gives its unrendered bytes back, and what it had rendered is still owed. */
  lemma DetachKeepsShared(l: Ledger, s: Id)
    requires SharedBooks(l) && l.window.totalInitial <= l.window.totalMax
    ensures SharedBooks(l.Detach(s))
  {
    UnrenderedFits(l);
    if s in l.streams {
      UnrenderedRemove(l.streams, s);
      UnrenderedFits(l);
      SumNonNegative(Entries(l.streams - {s}));
    }
  }

  lemma {:induction false} NothingInFlight(l: Link, id: Id)
    requires forall p :: p in l.wire ==> p.id != id
    requires forall a :: a in l.acks ==> a.id != id
    ensures OnWire(l.wire, id) == 0 && InAcks(l.acks, id) == 0
    decreases |l.wire| + |l.acks|
  {
    if l.wire != [] {
      NothingInFlight(l.(wire := l.wire[1..]), id);
    } else if l.acks != [] {
      NothingInFlight(l.(acks := l.acks[1..]), id);
    }
  }

  lemma OpenKeeps(l: Link, id: Id)
    requires Books(l) && Enabled(l, Open(id))
    ensures Books(Next(l, Open(id)))
  {
    var m := Next(l, Open(id));
    NothingInFlight(l, id);
    forall x | x in m.tallies && x !in m.retired ensures StreamBooks(m, x) {
      assert x != id ==> StreamBooks(l, x);
    }
  }

  lemma SendKeeps(l: Link, id: Id, n: U32, spends: bool)
    requires Books(l) && Enabled(l, Send(id, n, spends))
    ensures Books(Next(l, Send(id, n, spends)))
  {
    var m := Next(l, Send(id, n, spends));
    forall x | x in m.tallies && x !in m.retired ensures StreamBooks(m, x) {
      assert StreamBooks(l, x);
      OnWireSnoc(l.wire, Packet(id, n, spends), x);
      if x == id && spends {
        assert l.header * (l.tallies[id].frames + 1) == l.header * l.tallies[id].frames + l.header;
      }
    }
  }

  lemma ArriveKeeps(l: Link)
    requires Books(l) && Enabled(l, Arrive)
    ensures Books(Next(l, Arrive))
  {
    var m := Next(l, Arrive);
    var p := l.wire[0];
    if p.id !in l.retired {
      assert StreamBooks(l, p.id);
      AttachKeepsShared(l.ledger, p.id);
      ReceiveKeepsShared(Seen(l, p.id), p.id, p.n);
    }
    forall x | x in m.tallies && x !in m.retired ensures StreamBooks(m, x) {
      assert StreamBooks(l, x);
    }
  }

  lemma DrainKeeps(l: Link, id: Id)
    requires Books(l) && l.ledger.Owing(id)
    ensures Books(Drained(l, id))
    ensures l.ledger.AckBytes(id) == l.ledger.streams[id].ungranted
  {
    var m := Drained(l, id);
    assert StreamBooks(l, id);
    DrainKeepsShared(l.ledger, id);
    forall x | x in m.tallies && x !in m.retired ensures StreamBooks(m, x) {
      assert StreamBooks(l, x);
      InAcksSnoc(l.acks, Ack(id, l.ledger.AckBytes(id)), x);
    }
  }

  lemma PaintKeeps(l: Link, id: Id, n: U32)
    requires Books(l) && Enabled(l, Paint(id, n))
    ensures Books(Next(l, Paint(id, n)))
  {
    assert StreamBooks(l, id);
    var m := l.(ledger := l.ledger.Paint(id, n));
    PaintKeepsShared(l.ledger, id, n);
    forall x | x in m.tallies && x !in m.retired ensures StreamBooks(m, x) {
      assert StreamBooks(l, x);
    }
    if m.ledger.BatchFull(id) && m.ledger.Owing(id) {
      DrainKeeps(m, id);
    }
  }

  /** An ack gives back exactly what it says: the ceiling is never what stops it. */
  lemma AckFits(l: Link)
    requires Books(l) && l.acks != [] && l.acks[0].id !in l.retired
    ensures var a := l.acks[0];
      a.id in l.sinks && Replenished(l.ledger.window, l.sinks[a.id], a.n) == l.sinks[a.id] + a.n
  {
    var a := l.acks[0];
    assert a in l.acks;
    assert StreamBooks(l, a.id);
    assert l.header * l.tallies[a.id].frames >= 0;
  }

  lemma AckLandsKeeps(l: Link)
    requires Books(l) && Enabled(l, AckLands)
    ensures Books(Next(l, AckLands))
  {
    var m := Next(l, AckLands);
    if l.acks[0].id !in l.retired {
      AckFits(l);
    }
    forall x | x in m.tallies && x !in m.retired ensures StreamBooks(m, x) {
      assert StreamBooks(l, x);
      assert InAcks(l.acks, x) == (if l.acks[0].id == x then l.acks[0].n else 0) + InAcks(m.acks, x);
      assert Seen(m, x) == Seen(l, x);
    }
  }

  lemma DetachKeeps(l: Link, e: Event)
    requires Books(l) && Enabled(l, e) && (e.ClientDetach? || e.DaemonDetach?)
    ensures Books(Next(l, e))
  {
    var m := Next(l, e);
    DetachKeepsShared(l.ledger, e.id);
    forall x | x in m.tallies && x !in m.retired ensures StreamBooks(m, x) {
      assert StreamBooks(l, x);
    }
  }

  lemma StepKeeps(l: Link, e: Event)
    requires Books(l) && Enabled(l, e)
    ensures Books(Next(l, e)) && Next(l, e).header == l.header && Next(l, e).ledger.window == l.ledger.window
  {
    match e
    case Open(id) => OpenKeeps(l, id);
    case Send(id, n, spends) => SendKeeps(l, id, n, spends);
    case Arrive => ArriveKeeps(l);
    case Paint(id, n) => PaintKeeps(l, id, n);
    case Flush(id) => DrainKeeps(l, id);
    case AckLands => AckLandsKeeps(l);
    case ClientDetach(_) => DetachKeeps(l, e);
    case DaemonDetach(_) => DetachKeeps(l, e);
  }

  /** What a drain puts on the way is the ack the ledger hands out for it, which is for all that was owed. */
  lemma DrainSends(l: Link, id: Id)
    requires Books(l) && l.ledger.Owing(id)
    ensures AckOf(l.ledger.AckBytes(id)) == Some(l.ledger.streams[id].ungranted)
    ensures Drained(l, id).acks == l.acks + [Ack(id, AckOf(l.ledger.AckBytes(id)).value)]
  {
    assert StreamBooks(l, id);
  }

  /** A flush acks every stream that has rendered anything it has not been acked for, and for all of it. */
  lemma FlushAcksAll(l: Link, id: Id)
    requires Books(l)
    ensures id in l.ledger.AcksOwed() <==> id in l.ledger.streams && 0 < l.ledger.streams[id].ungranted
    ensures id in l.ledger.AcksOwed() ==> l.ledger.AcksOwed()[id] == l.ledger.streams[id].ungranted
  {
    if id in l.ledger.streams {
      assert StreamBooks(l, id);
    }
  }

  // ----- Whole runs -----

  predicate Runs(l: Link, run: seq<Event>)
    decreases |run|
  {
    run == [] || (Enabled(l, run[0]) && Runs(Next(l, run[0]), run[1..]))
  }

  function After(l: Link, run: seq<Event>): Link
    requires Runs(l, run)
    decreases |run|
  {
    if run == [] then l else After(Next(l, run[0]), run[1..])
  }

  lemma StartKeeps(w: CreditWindow, header: nat)
    requires w.IsCoherent()
    ensures Books(Start(w, header))
  {
    SumZero(Entries(map[]));
  }

  /** Credit is conserved in every run, per stream and in the shared budget. */
  lemma {:induction false} RunKeeps(l: Link, run: seq<Event>)
    requires Books(l) && Runs(l, run)
    ensures Books(After(l, run)) && After(l, run).header == l.header && After(l, run).ledger.window == l.ledger.window
    decreases |run|
  {
    if run != [] {
      StepKeeps(l, run[0]);
      RunKeeps(Next(l, run[0]), run[1..]);
    }
  }

  // ----- What that means -----

  /**
    * From the start of any run, for every stream the client still holds: what the daemon may send,
    * what is in flight, what is waiting to be painted, what is waiting to be acked and what is being
    * acked add up to the opening allowance; and the shared budget adds up to its own.
    */
  lemma CreditIsConserved(w: CreditWindow, run: seq<Event>, id: Id)
    requires w.IsCoherent() && Runs(Start(w, 0), run)
    ensures var l := After(Start(w, 0), run);
      && l.ledger.totalCredit + l.ledger.totalUngranted + Unrendered(l.ledger.streams) == w.totalInitial
      && (id in l.tallies && id !in l.retired ==>
            && id in l.sinks
            && var e := Seen(l, id).streams[id];
            l.sinks[id] + OnWire(l.wire, id) + (e.unrendered - l.tallies[id].extra) + e.ungranted + InAcks(l.acks, id)
              == w.perStreamInitial)
  {
    StartKeeps(w, 0);
    RunKeeps(Start(w, 0), run);
    var l := After(Start(w, 0), run);
    if id in l.tallies && id !in l.retired {
      assert StreamBooks(l, id);
    }
  }

  /** Nothing in flight, everything painted, nothing left to ack. */
  predicate Settled(l: Link, id: Id) {
    && l.wire == [] && l.acks == [] && id in l.tallies
    && (id in l.ledger.streams ==> Unpainted(l, id) == 0 && !l.ledger.Owing(id))
  }

  /**
    * Once everything is acked the allowance is back to where it opened, less `header` for every frame
    * ever sent; and a daemon that charges a header can send only so many frames on one stream, however
    * faithfully they are acked.
    */
  lemma FullAckRestores(w: CreditWindow, header: nat, run: seq<Event>, id: Id)
    requires w.IsCoherent() && Runs(Start(w, header), run)
    ensures var l := After(Start(w, header), run);
      id in l.tallies && id !in l.retired ==>
        && id in l.sinks
        && (Settled(l, id) ==> l.sinks[id] == w.perStreamInitial - header * l.tallies[id].frames)
        && header * l.tallies[id].frames < w.perStreamInitial + w.chunk + header
  {
    StartKeeps(w, header);
    RunKeeps(Start(w, header), run);
    var l := After(Start(w, header), run);
    if id in l.tallies && id !in l.retired {
      assert StreamBooks(l, id);
    }
  }

  /**
    * Exactly when the client drops the connection over a frame. On the stream's own account that is
    * when the daemon's allowance, with what is still behind the frame and what is being acked, does not
    * cover the frames it never charged for; the shared budget is the client's alone, so it can refuse
    * whatever the daemon's allowances say. The reader's gate answers for the first frame of a read, when there is one
    * stream, and for no other.
    */
  lemma RefusedExactly(l: Link)
    requires Books(l) && l.wire != [] && l.wire[0].id !in l.retired
    ensures var p := l.wire[0];
      p.id in l.tallies && p.id in l.sinks
    ensures var p := l.wire[0];
      Refused(l) <==>
        || p.n > l.ledger.totalCredit
        || l.sinks[p.id] + OnWire(l.wire[1..], p.id) + InAcks(l.acks, p.id) + l.header * l.tallies[p.id].frames
           < l.tallies[p.id].extra + if p.spends then 0 else p.n
    ensures var p := l.wire[0];
      l.ledger.streams.Keys == {p.id} && !l.ledger.IsBlocked() && p.n <= l.ledger.window.chunk ==> !Refused(l)
  {
    assert l.wire[0] in l.wire;
    assert StreamBooks(l, l.wire[0].id);
  }

  function Arrives(k: nat): seq<Event> {
    seq(k, _ => Arrive)
  }

  /** What is in flight ends in output of a stream whose allowance, with what is being acked, is overspent. */
  predicate Overshot(l: Link, id: Id) {
    && l.header == 0 && l.wire != [] && l.wire[|l.wire| - 1].id == id && l.wire[|l.wire| - 1].spends
    && id !in l.retired && id in l.sinks && id in l.tallies
    && l.sinks[id] + InAcks(l.acks, id) < l.tallies[id].extra
  }

  lemma StillOvershot(l: Link, id: Id)
    requires Overshot(l, id) && |l.wire| > 1 && Enabled(l, Arrive)
    ensures Overshot(Next(l, Arrive), id)
  {
  }

  /**
    * A daemon that overshoots loses the connection, unless an ack is already on its way to cover the
    * overshoot or the renderer reports something first: delivering what is in flight cannot finish.
    */
  lemma {:induction false} OvershootIsFatal(l: Link, id: Id)
    requires Books(l) && Overshot(l, id)
    ensures !Runs(l, Arrives(|l.wire|))
    decreases |l.wire|
  {
    var run := Arrives(|l.wire|);
    assert run[0] == Arrive && run[1..] == Arrives(|l.wire| - 1);
    if |l.wire| == 1 {
      RefusedExactly(l);
      assert !Enabled(l, Arrive);
    } else if Enabled(l, Arrive) {
      StepKeeps(l, Arrive);
      StillOvershot(l, id);
      OvershootIsFatal(Next(l, Arrive), id);
    }
  }

  // ----- A stream that has been detached -----

  /** The client has closed the stream. */
  predicate Shut(l: Link, id: Id) {
    id in l.tallies && id in l.retired && id !in l.ledger.streams
  }

  /** The daemon has. */
  predicate Unserved(l: Link, id: Id) {
    id in l.tallies && id !in l.sinks
  }

  lemma StepStays(l: Link, e: Event, id: Id)
    requires Enabled(l, e)
    ensures Shut(l, id) ==> Shut(Next(l, e), id)
    ensures Unserved(l, id) ==> Unserved(Next(l, e), id)
  {
  }

  lemma {:induction false} Stays(l: Link, run: seq<Event>, id: Id)
    requires Runs(l, run)
    ensures Shut(l, id) ==> Shut(After(l, run), id)
    ensures Unserved(l, id) ==> Unserved(After(l, run), id)
    decreases |run|
  {
    if run != [] {
      StepStays(l, run[0], id);
      Stays(Next(l, run[0]), run[1..], id);
    }
  }

  /**
    * Detaching is for good. Once the client has done it, whatever still arrives is dropped without touching the ledger;
    * once the daemon has, nothing is ever sent on the stream again.
    */
  lemma DetachedForGood(l: Link, id: Id, run: seq<Event>)
    ensures Enabled(l, ClientDetach(id)) && Runs(Next(l, ClientDetach(id)), run) ==>
      var n := After(Next(l, ClientDetach(id)), run);
      && id !in n.ledger.streams
      && (n.wire != [] && n.wire[0].id == id ==> Enabled(n, Arrive) && Next(n, Arrive) == n.(wire := n.wire[1..]))
    ensures Enabled(l, DaemonDetach(id)) && id in l.tallies && Runs(Next(l, DaemonDetach(id)), run) ==>
      var n := After(Next(l, DaemonDetach(id)), run);
      && id !in n.sinks
      && forall k, spends :: !Enabled(n, Send(id, k, spends))
  {
    if Enabled(l, ClientDetach(id)) && Runs(Next(l, ClientDetach(id)), run) {
      Stays(Next(l, ClientDetach(id)), run, id);
    }
    if Enabled(l, DaemonDetach(id)) && id in l.tallies && Runs(Next(l, DaemonDetach(id)), run) {
      Stays(Next(l, DaemonDetach(id)), run, id);
    }
  }
}
