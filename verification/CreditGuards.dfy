/** What a daemon can look at before it sends, so that nothing it sends is ever refused. */
module CreditGuards {
  import opened Prelude
  import opened Credit
  import opened CreditRuns
  import opened CreditStalls
  import opened CreditReads
  import opened Sums

  function OpenIds(l: Link): set<Id> {
    l.tallies.Keys - l.retired
  }

  /** What is owed to the shared budget for streams that have been left, if anything. */
  ghost function Leftover(l: Ledger): int {
    var left := l.totalUngranted - Sum(Grants(l.streams));
    if left > 0 then left else 0
  }

  /** The shared budget covers the opening allowances of so many streams, and what is owed for those that were left. */
  ghost predicate Room(l: Ledger, open: nat) {
    open * l.window.perStreamInitial + Leftover(l) <= l.window.totalInitial
  }

  /**
    * Output is never more than the allowance it is charged to, nothing else has a payload, and there is room for a
    * stream before it is opened.
    */
  ghost predicate Guarded(l: Link, e: Event) {
    match e
    case Open(_) => Room(l.ledger, |OpenIds(l)| + 1)
    case Send(id, n, spends) => if spends then id in l.sinks && n <= l.sinks[id] else n == 0
    case _ => true
  }

  ghost predicate GuardedRuns(l: Link, run: seq<Event>)
    decreases |run|
  {
    run == [] || (Enabled(l, run[0]) && Guarded(l, run[0]) && GuardedRuns(Next(l, run[0]), run[1..]))
  }

  /** What a guarded run keeps beside the books. */
  ghost predicate GuardedBooks(l: Link) {
    && Books(l) && GuardedLink(l)
    && Room(l.ledger, |OpenIds(l)|)
  }

  predicate GuardedLink(l: Link) {
    && l.header == 0
    && (forall id :: id in l.tallies ==> l.tallies[id].extra == 0)
    && (forall p :: p in l.wire && !p.spends ==> p.n == 0)
    && (forall id :: id in l.sinks && id in l.tallies && id !in l.retired ==> 0 <= l.sinks[id])
  }

  // ----- What has been spent of the shared budget -----

  function Spent(streams: map<Id, StreamCredit>): map<Id, int> {
    map s | s in streams :: streams[s].unrendered as int + streams[s].ungranted
  }

  lemma {:induction false} SpentIs(streams: map<Id, StreamCredit>)
    ensures Sum(Spent(streams)) == Unrendered(streams) + Sum(Grants(streams))
    decreases |streams|
  {
    if streams == map[] {
      assert Spent(streams) == Entries(streams) == Grants(streams) == map[];
    } else {
      var s :| s in streams;
      var rest := streams - {s};
      SpentIs(rest);
      SumRemove(Spent(streams), s);
      SumRemove(Entries(streams), s);
      SumRemove(Grants(streams), s);
      assert Spent(streams) - {s} == Spent(rest);
      assert Entries(streams) - {s} == Entries(rest);
      assert Grants(streams) - {s} == Grants(rest);
    }
  }

  /** Streams that have each spent no more than they opened with leave a stream among them its own credit. */
  lemma SpentLeaves(streams: map<Id, StreamCredit>, opening: nat, s: Id)
    requires forall x :: x in streams ==> streams[x].credit + streams[x].unrendered + streams[x].ungranted == opening
    ensures Sum(Spent(streams)) <= |streams| * opening
    ensures s in streams ==> Sum(Spent(streams)) + streams[s].credit <= |streams| * opening
  {
    var spent := Spent(streams);
    SameSize(spent, streams);
    SumAtMost(spent, opening);
    if s in streams {
      SumRemove(spent, s);
      SumAtMost(spent - {s}, opening);
      assert |spent - {s}| == |spent| - 1;
      OneMore(|spent|, opening);
    }
  }

  lemma SameSize<V, W>(a: map<Id, V>, b: map<Id, W>)
    requires a.Keys == b.Keys
    ensures |a| == |b|
  {
    assert |a| == |a.Keys| && |b| == |b.Keys|;
  }

  /** So the shared budget is never what a guarded frame is refused for. */
  lemma SharedCovers(l: Link, id: Id)
    requires GuardedBooks(l) && id in l.tallies && id !in l.retired
    ensures Seen(l, id).streams[id].credit <= l.ledger.totalCredit
  {
    var streams, opening := l.ledger.streams, l.ledger.window.perStreamInitial;
    forall x | x in streams ensures streams[x].credit + streams[x].unrendered + streams[x].ungranted == opening {
      assert StreamBooks(l, x);
    }
    SpentIs(streams);
    SpentLeaves(streams, opening, id);
    HeldAreOpen(streams, OpenIds(l), id);
    Shares(l.ledger, Sum(Spent(streams)), |streams|, |OpenIds(l)|, Seen(l, id).streams[id].credit, id in streams);
  }

  lemma HeldAreOpen(streams: map<Id, StreamCredit>, open: set<Id>, id: Id)
    requires streams.Keys <= open && id in open
    ensures |streams| + (if id in streams then 0 else 1) <= |open|
  {
    Fewer(streams.Keys + {id}, open);
    assert |streams.Keys| == |streams|;
    assert id in streams ==> streams.Keys + {id} == streams.Keys;
  }

  lemma Shares(l: Ledger, spent: int, held: nat, open: nat, own: int, among: bool)
    requires SharedBooks(l) && spent == Unrendered(l.streams) + Sum(Grants(l.streams)) && Room(l, open)
    requires spent <= held * l.window.perStreamInitial
    requires among ==> spent + own <= held * l.window.perStreamInitial
    requires !among ==> own == l.window.perStreamInitial
    requires held + (if among then 0 else 1) <= open
    ensures own <= l.totalCredit
  {
    var opening := l.window.perStreamInitial;
    MulMonotone(held + (if among then 0 else 1), open, opening);
    OneMore(held + 1, opening);
  }

  // ----- What each step keeps -----

  lemma RoomKept(l: Link, e: Event)
    requires GuardedBooks(l) && Enabled(l, e) && Guarded(l, e)
    ensures Room(Next(l, e).ledger, |OpenIds(Next(l, e))|)
  {
    match e
    case Open(id) => OpenRoom(l, id);
    case Arrive => ArriveRoom(l);
    case Paint(id, n) =>
      PaintedRoom(l, id, n);
      assert OpenIds(Next(l, e)) == OpenIds(l);
    case Flush(id) => DrainRoom(l.ledger, id, |OpenIds(l)|);
    case ClientDetach(id) => DetachRoom(l, id);
    case _ => assert OpenIds(Next(l, e)) == OpenIds(l) && Next(l, e).ledger == l.ledger;
  }

  lemma OpenRoom(l: Link, id: Id)
    requires Books(l) && Enabled(l, Open(id)) && Guarded(l, Open(id))
    ensures Room(Next(l, Open(id)).ledger, |OpenIds(Next(l, Open(id)))|)
  {
    OneMoreOpen(l.tallies.Keys, l.retired, id);
    assert Next(l, Open(id)).tallies.Keys == l.tallies.Keys + {id};
  }

  lemma OneMoreOpen(all: set<Id>, retired: set<Id>, id: Id)
    requires id !in all && retired <= all
    ensures |(all + {id}) - retired| == |all - retired| + 1
  {
    assert (all + {id}) - retired == (all - retired) + {id};
  }

  lemma ArriveRoom(l: Link)
    requires Books(l) && Enabled(l, Arrive) && Room(l.ledger, |OpenIds(l)|)
    ensures Room(Next(l, Arrive).ledger, |OpenIds(Next(l, Arrive))|)
  {
    var p, m := l.wire[0], Next(l, Arrive);
    assert OpenIds(m) == OpenIds(l);
    if p.id !in l.retired {
      var seen := Seen(l, p.id);
      GrantsUpdate(l.ledger.streams, p.id, seen.Receive(p.id, p.n).streams[p.id]);
      assert seen.Receive(p.id, p.n).streams == l.ledger.streams[p.id := seen.Receive(p.id, p.n).streams[p.id]];
    }
  }

  /** A drain owes the shared budget nothing any more. */
  lemma DrainRoom(l: Ledger, id: Id, open: nat)
    requires l.Owing(id) && Room(l, open)
    ensures Room(l.Drain(id), open)
  {
    SumNonNegative(Grants(l.Drain(id).streams));
  }

  lemma PaintRoom(l: Ledger, id: Id, n: U32, open: nat)
    requires l.Phantom(id, n).None? && l.streams[id].ungranted + n <= U32_MAX && Room(l, open)
    ensures Room(l.Paint(id, n), open)
  {
    GrantsUpdate(l.streams, id, l.Paint(id, n).streams[id]);
  }

  lemma PaintedRoom(l: Link, id: Id, n: U32)
    requires Books(l) && Enabled(l, Paint(id, n)) && Room(l.ledger, |OpenIds(l)|)
    ensures Room(Next(l, Paint(id, n)).ledger, |OpenIds(l)|)
  {
    assert StreamBooks(l, id);
    var painted := l.ledger.Paint(id, n);
    PaintRoom(l.ledger, id, n, |OpenIds(l)|);
    if painted.BatchFull(id) && painted.Owing(id) {
      DrainRoom(painted, id, |OpenIds(l)|);
    }
  }

  /** What a stream that is left has rendered and not been acked for is owed still, and is no more than it opened with. */
  lemma DetachRoom(l: Link, id: Id)
    requires Books(l) && Enabled(l, ClientDetach(id)) && Room(l.ledger, |OpenIds(l)|)
    ensures Room(Next(l, ClientDetach(id)).ledger, |OpenIds(Next(l, ClientDetach(id)))|)
  {
    var m := Next(l, ClientDetach(id));
    OneFewer(l.tallies.Keys, l.retired, id);
    if id in l.ledger.streams {
      assert StreamBooks(l, id);
      LeftRoom(l.ledger, id, |OpenIds(m)|);
    } else {
      OneMore(|OpenIds(m)| + 1, l.ledger.window.perStreamInitial);
    }
  }

  lemma OneFewer(all: set<Id>, retired: set<Id>, id: Id)
    requires id in all && id !in retired
    ensures |all - retired| == |all - (retired + {id})| + 1
  {
    assert all - retired == all - (retired + {id}) + {id};
  }

  lemma LeftRoom(l: Ledger, id: Id, others: nat)
    requires id in l.streams && l.streams[id].ungranted <= l.window.perStreamInitial && Room(l, others + 1)
    ensures Room(l.Detach(id), others)
  {
    SumRemove(Grants(l.streams), id);
    assert Grants(l.streams) - {id} == Grants(l.streams - {id});
    OneMore(others + 1, l.window.perStreamInitial);
  }

  lemma LinkKept(l: Link, e: Event)
    requires GuardedLink(l) && Enabled(l, e) && Guarded(l, e)
    ensures GuardedLink(Next(l, e))
  {
    match e
    case Send(_, _, _) => SendLinkKept(l, e);
    case Arrive => assert l.wire[0] in l.wire;
    case AckLands => AckLinkKept(l);
    case _ =>
  }

  lemma SendLinkKept(l: Link, e: Event)
    requires GuardedLink(l) && Enabled(l, e) && Guarded(l, e) && e.Send?
    ensures GuardedLink(Next(l, e))
  {
  }

  lemma AckLinkKept(l: Link)
    requires GuardedLink(l) && Enabled(l, AckLands)
    ensures GuardedLink(Next(l, AckLands))
  {
  }

  lemma GuardedStep(l: Link, e: Event)
    requires GuardedBooks(l) && Enabled(l, e) && Guarded(l, e)
    ensures GuardedBooks(Next(l, e))
  {
    StepKeeps(l, e);
    LinkKept(l, e);
    RoomKept(l, e);
  }

  // ----- Nothing is refused -----

  lemma GuardedIsTaken(l: Link)
    requires GuardedBooks(l) && l.wire != []
    ensures !Refused(l)
  {
    var p := l.wire[0];
    if p.id !in l.retired {
      assert p in l.wire;
      SharedCovers(l, p.id);
      RefusedExactly(l);
    }
  }

  lemma {:induction false} GuardedDelivers(l: Link, k: nat)
    requires GuardedBooks(l) && k <= |l.wire|
    ensures Runs(l, Arrives(k))
    decreases k
  {
    if k > 0 {
      assert l.wire[0] in l.wire && Arrives(k)[1..] == Arrives(k - 1);
      GuardedIsTaken(l);
      GuardedStep(l, Arrive);
      GuardedDelivers(Next(l, Arrive), k - 1);
    }
  }

  lemma {:induction false} GuardedKeeps(l: Link, run: seq<Event>)
    requires GuardedBooks(l) && GuardedRuns(l, run)
    ensures Runs(l, run) && GuardedBooks(After(l, run))
    decreases |run|
  {
    if run != [] {
      GuardedStep(l, run[0]);
      GuardedKeeps(Next(l, run[0]), run[1..]);
    }
  }

  /**
    * However many streams there are, whenever they are painted, acked, left or flushed, and however the reader cuts
    * what is on the wire: a daemon that looks at its allowance before every frame, and not only whether there is any,
    * never has one refused.
    */
  lemma GuardedNeverRefused(w: CreditWindow, run: seq<Event>, k: nat)
    requires w.IsCoherent() && GuardedRuns(Start(w, 0), run)
    ensures Runs(Start(w, 0), run)
    ensures var l := After(Start(w, 0), run);
      && (l.wire != [] ==> !Refused(l))
      && (k <= |l.wire| ==> Runs(l, Arrives(k)))
  {
    StartKeeps(w, 0);
    SumZero(Grants(map[]));
    var l := Start(w, 0);
    assert OpenIds(l) == {} && GuardedBooks(l);
    GuardedKeeps(l, run);
    var m := After(l, run);
    if m.wire != [] {
      GuardedIsTaken(m);
    }
    if k <= |m.wire| {
      GuardedDelivers(m, k);
    }
  }

  // ----- What is charged that is never given back -----

  /**
    * In every run, guarded or not: what the window was charged for that was not output comes off what a stream may
    * receive and off the shared budget for as long as the stream is open, whatever the daemon has been acked. So
    * there can be no more of it than the stream opened with.
    */
  lemma ExtraIsNeverReturned(w: CreditWindow, run: seq<Event>, id: Id)
    requires w.IsCoherent() && Runs(Start(w, 0), run)
    ensures var l := After(Start(w, 0), run);
      id in l.tallies && id !in l.retired ==>
        && Seen(l, id).streams[id].credit + l.tallies[id].extra <= w.perStreamInitial
        && l.ledger.totalCredit + l.tallies[id].extra <= w.totalInitial
        && (Settled(l, id) ==> id in l.sinks && Seen(l, id).streams[id].credit == l.sinks[id] - l.tallies[id].extra)
  {
    StartKeeps(w, 0);
    RunKeeps(Start(w, 0), run);
    var l := After(Start(w, 0), run);
    if id in l.tallies && id !in l.retired {
      assert StreamBooks(l, id);
      UnrenderedFits(l.ledger);
    }
  }

  /** Of all the streams that are open, together. */
  ghost function Extras(l: Link): map<Id, int> {
    map s | s in l.ledger.streams && s in l.tallies :: l.tallies[s].extra as int
  }

  lemma {:induction false} SumBelow(a: map<Id, int>, b: map<Id, int>)
    requires a.Keys == b.Keys && forall k :: k in a ==> a[k] <= b[k]
    ensures Sum(a) <= Sum(b)
    decreases |a|
  {
    if a == map[] {
      assert b == map[];
    } else {
      var k :| k in a;
      SumRemove(a, k);
      SumRemove(b, k);
      SumBelow(a - {k}, b - {k});
    }
  }

  lemma ExtrasStarveTheBudget(w: CreditWindow, run: seq<Event>)
    requires w.IsCoherent() && Runs(Start(w, 0), run)
    ensures var l := After(Start(w, 0), run);
      l.ledger.totalCredit + Sum(Extras(l)) <= w.totalInitial
  {
    StartKeeps(w, 0);
    RunKeeps(Start(w, 0), run);
    var l := After(Start(w, 0), run);
    forall s | s in l.ledger.streams ensures s in l.tallies && l.tallies[s].extra <= l.ledger.streams[s].unrendered {
      assert StreamBooks(l, s);
    }
    SumBelow(Extras(l), Entries(l.ledger.streams));
  }
}
