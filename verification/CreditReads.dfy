/**
  * The reader asks its gate once for every read, and a read ends wherever it ends: it completes as many frames as
  * there are bytes for, and none of them is asked about again.
  */
module CreditReads {
  import opened Prelude
  import Frames
  import opened Credit
  import opened CreditRuns
  import opened CreditStalls

  // ----- Several frames behind one gate -----

  /** What frames cost the window in all: those of a stream it has left are discarded. */
  function Charged(retired: set<Id>, packets: seq<Packet>): nat {
    if packets == [] then 0
    else (if packets[0].id in retired then 0 else packets[0].n) + Charged(retired, packets[1..])
  }

  /** What they cost one stream. */
  function ChargedTo(retired: set<Id>, packets: seq<Packet>, id: Id): nat {
    if packets == [] then 0
    else (if packets[0].id != id || id in retired then 0 else packets[0].n) + ChargedTo(retired, packets[1..], id)
  }

  /** What the window still has for them. */
  predicate Covers(l: Ledger, retired: set<Id>, packets: seq<Packet>) {
    && Charged(retired, packets) <= l.totalCredit
    && forall p :: p in packets ==> ChargedTo(retired, packets, p.id) <= l.Attach(p.id).streams[p.id].credit
  }

  lemma {:induction false} NotCharged(retired: set<Id>, packets: seq<Packet>, id: Id)
    requires forall p :: p in packets ==> p.id != id
    ensures ChargedTo(retired, packets, id) == 0
  {
    if packets != [] {
      NotCharged(retired, packets[1..], id);
    }
  }

  /** What is there for each stream among `packets` is there for every stream. */
  lemma CoversEvery(l: Ledger, retired: set<Id>, packets: seq<Packet>, id: Id)
    requires Covers(l, retired, packets)
    ensures ChargedTo(retired, packets, id) <= l.Attach(id).streams[id].credit
  {
    if forall p :: p in packets ==> p.id != id {
      NotCharged(retired, packets, id);
    }
  }

  /** One frame refused is one the window has not enough for; one taken leaves that much less for the others. */
  lemma CoversFirst(l: Link, packets: seq<Packet>)
    requires l.wire != [] && l.wire[0].id in l.tallies && packets != [] && packets[0] == l.wire[0]
    ensures Refused(l) ==> !Covers(l.ledger, l.retired, packets)
    ensures !Refused(l) ==>
      (Covers(l.ledger, l.retired, packets) <==> Covers(Next(l, Arrive).ledger, l.retired, packets[1..]))
  {
    var p, rest := packets[0], packets[1..];
    assert packets == [p] + rest;
    if Refused(l) {
      assert p in packets;
    } else {
      var m := Next(l, Arrive);
      if Covers(l.ledger, l.retired, packets) {
        forall q | q in rest ensures ChargedTo(l.retired, rest, q.id) <= m.ledger.Attach(q.id).streams[q.id].credit {
          assert q in packets;
        }
      }
      if Covers(m.ledger, l.retired, rest) {
        forall q | q in packets
          ensures ChargedTo(l.retired, packets, q.id) <= l.ledger.Attach(q.id).streams[q.id].credit
        {
          CoversEvery(m.ledger, l.retired, rest, q.id);
        }
      }
    }
  }

  /**
    * Whether so many frames can be delivered one after another, exactly: the window has to have what they cost
    * together and what each stream's cost it. It can be asked of what has been read before any is delivered.
    */
  lemma {:induction false} DeliveredExactly(l: Link, k: nat)
    requires k <= |l.wire| && forall p :: p in l.wire ==> p.id in l.tallies
    ensures Runs(l, Arrives(k)) <==> Covers(l.ledger, l.retired, l.wire[..k])
    decreases k
  {
    if k > 0 {
      var packets := l.wire[..k];
      assert l.wire[0] in l.wire && Arrives(k)[1..] == Arrives(k - 1);
      CoversFirst(l, packets);
      if !Refused(l) {
        var m := Next(l, Arrive);
        assert m.wire[..k - 1] == packets[1..];
        DeliveredExactly(m, k - 1);
      }
    }
  }

  lemma {:induction false} OneCharged(retired: set<Id>, packets: seq<Packet>, id: Id)
    requires forall p :: p in packets ==> p.id == id
    ensures id !in retired ==> Charged(retired, packets) == ChargedTo(retired, packets, id)
  {
    if packets != [] {
      OneCharged(retired, packets[1..], id);
    }
  }

  /** With one stream it is one comparison, of what the frames hold with what the stream may still receive. */
  lemma OneStreamExactly(l: Link, k: nat, id: Id)
    requires 0 < k <= |l.wire| && id in l.tallies && id !in l.retired && forall p :: p in l.wire ==> p.id == id
    ensures Runs(l, Arrives(k)) <==> Charged({}, l.wire[..k]) <= Seen(l, id).Available(id)
  {
    DeliveredExactly(l, k);
    var packets := l.wire[..k];
    assert packets[0] in packets && packets[0] in l.wire;
    assert forall p :: p in packets ==> p in l.wire;
    OneCharged(l.retired, packets, id);
    SameCharge(l.retired, packets);
  }

  lemma {:induction false} SameCharge(retired: set<Id>, packets: seq<Packet>)
    requires forall p :: p in packets ==> p.id !in retired
    ensures Charged({}, packets) == Charged(retired, packets)
  {
    if packets != [] {
      assert packets[0] in packets;
      SameCharge(retired, packets[1..]);
    }
  }

  // ----- One read -----

  function Length(p: Packet): nat {
    Frames.FRAME_HEADER_BYTES + p.n
  }

  function Lengths(packets: seq<Packet>): nat {
    if packets == [] then 0 else Length(packets[0]) + Lengths(packets[1..])
  }

  /** How many frames are whole in the first so many bytes. */
  function Completed(wire: seq<Packet>, bytes: nat): (k: nat)
    ensures k <= |wire| && Lengths(wire[..k]) <= bytes
  {
    if wire == [] || bytes < Length(wire[0]) then 0
    else
      var k := Completed(wire[1..], bytes - Length(wire[0]));
      assert wire[..1 + k][1..] == wire[1..][..k];
      1 + k
  }

  /** The link, and how many bytes of the frame at the front the decoder already has. */
  datatype Reading = Reading(link: Link, partial: nat)

  datatype Act = Does(e: Event) | Reads(bytes: nat)

  /** The gate is open, and the socket has so many bytes more, of which no more than a chunk are read. */
  predicate Readable(r: Reading, bytes: nat) {
    && !r.link.ledger.IsBlocked()
    && 0 < bytes <= r.link.ledger.window.chunk
    && r.partial + bytes <= Lengths(r.link.wire)
  }

  function Taken(r: Reading, bytes: nat): (k: nat)
    ensures k <= |r.link.wire|
  {
    Completed(r.link.wire, r.partial + bytes)
  }

  /** The read delivers a frame the window refuses, and that is the end of the connection. */
  predicate Drops(r: Reading, bytes: nat) {
    !Runs(r.link, Arrives(Taken(r, bytes)))
  }

  predicate Can(r: Reading, a: Act) {
    match a
    case Does(e) => !e.Arrive? && Enabled(r.link, e)
    case Reads(bytes) => Readable(r, bytes) && !Drops(r, bytes)
  }

  function Do(r: Reading, a: Act): Reading
    requires Can(r, a)
  {
    match a
    case Does(e) => r.(link := Next(r.link, e))
    case Reads(bytes) =>
      var k := Taken(r, bytes);
      Reading(After(r.link, Arrives(k)), r.partial + bytes - Lengths(r.link.wire[..k]))
  }

  predicate CanAll(r: Reading, acts: seq<Act>)
    decreases |acts|
  {
    acts == [] || (Can(r, acts[0]) && CanAll(Do(r, acts[0]), acts[1..]))
  }

  function Done(r: Reading, acts: seq<Act>): Reading
    requires CanAll(r, acts)
    decreases |acts|
  {
    if acts == [] then r else Done(Do(r, acts[0]), acts[1..])
  }

  lemma {:induction false} CanBoth(r: Reading, a: seq<Act>, b: seq<Act>)
    requires CanAll(r, a) && CanAll(Done(r, a), b)
    ensures CanAll(r, a + b) && Done(r, a + b) == Done(Done(r, a), b)
    decreases |a|
  {
    if a == [] {
      assert a + b == b;
    } else {
      assert (a + b)[1..] == a[1..] + b;
      CanBoth(Do(r, a[0]), a[1..], b);
    }
  }

  lemma {:induction false} ChargedWithin(retired: set<Id>, packets: seq<Packet>)
    ensures Charged(retired, packets) + Frames.FRAME_HEADER_BYTES * |packets| <= Lengths(packets)
  {
    if packets != [] {
      ChargedWithin(retired, packets[1..]);
    }
  }

  /**
    * When a read drops the one stream there is, exactly: the frames it completes hold more than is left. A read that
    * starts at the start of a frame never does, because the gate asked for a whole chunk; one that finds bytes of a
    * frame already there completes that frame and may have a chunk for the next ones besides.
    */
  lemma ReadDropsExactly(r: Reading, bytes: nat, id: Id)
    requires Readable(r, bytes) && id in r.link.tallies && id !in r.link.retired && id in r.link.ledger.streams
    requires forall p :: p in r.link.wire ==> p.id == id
    ensures var l := r.link;
      && (Drops(r, bytes) <==> Charged({}, l.wire[..Taken(r, bytes)]) > l.ledger.Available(id))
      && (l.ledger.streams.Keys == {id} && r.partial <= Frames.FRAME_HEADER_BYTES * Taken(r, bytes) ==> !Drops(r, bytes))
  {
    var k := Taken(r, bytes);
    if k > 0 {
      OneStreamExactly(r.link, k, id);
      ChargedWithin({}, r.link.wire[..k]);
    }
  }

  // ----- One stream, the defaults, and nothing misbehaving -----

  /** After `k` whole chunks, each read to its end, and nothing painted. */
  function OneState(k: nat): Link
    requires k <= 9
  {
    var spent, opening := k * DEFAULT.chunk, DEFAULT.perStreamInitial;
    Link(0, map[1 := opening - spent], [],
         Ledger(DEFAULT, if k == 0 then map[] else map[1 := StreamCredit(opening - spent, spent, 0)],
                DEFAULT.totalInitial - spent, 0),
         {}, [], map[1 := Tally(k, 0)])
  }

  const OVER := Frames.FRAME_HEADER_BYTES

  /** A chunk sent, and read in two reads: a chunk's worth of it, and the rest. */
  const CHUNK := [Does(Send(1, DEFAULT.chunk, true)), Reads(DEFAULT.chunk), Reads(OVER)]

  /** The daemon's allowance is spent to its last whole chunk and then overshot, and the first of the two is read into. */
  const TAIL := [Does(Send(1, DEFAULT.chunk, true)), Does(Send(1, 40000, true)), Reads(DEFAULT.chunk)]

  function OneRun(k: nat): seq<Act> {
    if k == 0 then [Does(Open(1))] else OneRun(k - 1) + CHUNK
  }

  lemma CanThree(r: Reading, a: Act, b: Act, c: Act)
    requires Can(r, a) && Can(Do(r, a), b) && Can(Do(Do(r, a), b), c)
    ensures CanAll(r, [a, b, c]) && Done(r, [a, b, c]) == Do(Do(Do(r, a), b), c)
  {
    var x, y := Do(r, a), Do(Do(r, a), b);
    assert [a, b, c][1..] == [b, c] && [b, c][1..] == [c] && [c][1..] == [];
    assert CanAll(Do(y, c), []) && Done(Do(y, c), []) == Do(y, c);
    assert CanAll(y, [c]) && Done(y, [c]) == Do(y, c);
    assert CanAll(x, [b, c]) && Done(x, [b, c]) == Do(y, c);
  }

  lemma TwoPackets(p: Packet, q: Packet)
    ensures Lengths([p, q]) == Length(p) + Length(q) && Charged({}, [p, q]) == p.n + q.n
    ensures Completed([p, q], Length(p) + Length(q)) == 2
  {
    assert [p, q][1..] == [q] && [q][1..] == [];
    assert Lengths([q]) == Length(q) && Charged({}, [q]) == q.n;
    assert Completed([], 0) == 0 && Completed([q], Length(q)) == 1;
  }

  /** A read that completes nothing only adds to what the decoder has. */
  lemma ReadsNone(r: Reading, bytes: nat)
    requires Readable(r, bytes) && r.link.wire != [] && r.partial + bytes < Length(r.link.wire[0])
    ensures Can(r, Reads(bytes)) && Do(r, Reads(bytes)) == r.(partial := r.partial + bytes)
  {
    assert Arrives(0) == [] && Runs(r.link, []);
    assert r.link.wire[..0] == [];
  }

  /** A read that completes the only frame there is. */
  lemma ReadsOne(r: Reading, bytes: nat)
    requires Readable(r, bytes) && |r.link.wire| == 1 && r.partial + bytes == Length(r.link.wire[0])
    requires Enabled(r.link, Arrive)
    ensures Can(r, Reads(bytes)) && Do(r, Reads(bytes)) == Reading(Next(r.link, Arrive), 0)
  {
    var wire := r.link.wire;
    assert Completed(wire[1..], 0) == 0;
    assert Arrives(1)[1..] == [] && Runs(Next(r.link, Arrive), []);
    assert wire[..1] == wire && wire[1..] == [] && Lengths(wire) == Length(wire[0]);
  }

  lemma OneChunk(k: nat)
    requires k < 9
    ensures CanAll(Reading(OneState(k), 0), CHUNK) && Done(Reading(OneState(k), 0), CHUNK) == Reading(OneState(k + 1), 0)
  {
    var r := Reading(OneState(k), 0);
    var sent := Do(r, CHUNK[0]);
    ChunkArrives(k);
    assert Lengths(sent.link.wire) == DEFAULT.chunk + OVER;
    ReadsNone(sent, DEFAULT.chunk);
    ReadsOne(sent.(partial := DEFAULT.chunk), OVER);
    CanThree(r, CHUNK[0], CHUNK[1], CHUNK[2]);
  }

  lemma ChunkArrives(k: nat)
    requires k < 9
    ensures Enabled(OneState(k), Send(1, DEFAULT.chunk, true))
    ensures var l := Next(OneState(k), Send(1, DEFAULT.chunk, true));
      && l.wire == [Packet(1, DEFAULT.chunk, true)] && l.wire[1..] == [] && !l.ledger.IsBlocked()
      && l.ledger.window == DEFAULT && Enabled(l, Arrive) && Next(l, Arrive) == OneState(k + 1)
  {
    var l := Next(OneState(k), Send(1, DEFAULT.chunk, true));
    var m := Next(l, Arrive);
    assert m.sinks == OneState(k + 1).sinks && m.ledger.streams == OneState(k + 1).ledger.streams;
    assert m.tallies == OneState(k + 1).tallies;
  }

  lemma {:induction false} OneReaches(k: nat)
    requires k <= 9
    ensures CanAll(Reading(Start(DEFAULT, 0), 0), OneRun(k))
    ensures Done(Reading(Start(DEFAULT, 0), 0), OneRun(k)) == Reading(OneState(k), 0)
  {
    if k == 0 {
      var r := Reading(Start(DEFAULT, 0), 0);
      assert [Does(Open(1))][1..] == [] && Do(r, Does(Open(1))) == Reading(OneState(0), 0);
    } else {
      OneReaches(k - 1);
      OneChunk(k - 1);
      CanBoth(Reading(Start(DEFAULT, 0), 0), OneRun(k - 1), CHUNK);
    }
  }

  lemma TailReaches()
    ensures var r := Reading(OneState(9), 0);
      && CanAll(r, TAIL)
      && var s := Done(r, TAIL);
      && s.partial == DEFAULT.chunk && s.link.wire == [Packet(1, DEFAULT.chunk, true), Packet(1, 40000, true)]
      && s.link.ledger == OneState(9).ledger && s.link.tallies.Keys == {1} && s.link.retired == {}
      && s.link.sinks == map[1 := -7232]
  {
    var r := Reading(OneState(9), 0);
    var s := Do(Do(r, TAIL[0]), TAIL[1]);
    assert s.link.wire == [Packet(1, DEFAULT.chunk, true), Packet(1, 40000, true)];
    TwoPackets(s.link.wire[0], s.link.wire[1]);
    ReadsNone(s, DEFAULT.chunk);
    CanThree(r, TAIL[0], TAIL[1], TAIL[2]);
  }

  /**
    * The gate does not save a stream that is alone: ten chunks and part of an eleventh, every read behind an open
    * gate, and the read that completes the tenth completes the eleventh as well, which is refused.
    */
  lemma OneStreamIsDropped() returns (acts: seq<Act>)
    ensures CanAll(Reading(Start(DEFAULT, 0), 0), acts)
    ensures var r := Done(Reading(Start(DEFAULT, 0), 0), acts);
      && r.link.tallies.Keys == {1} == r.link.ledger.streams.Keys && r.link.retired == {}
      && Readable(r, 40000 + 2 * OVER) && Drops(r, 40000 + 2 * OVER)
  {
    OneReaches(9);
    TailReaches();
    CanBoth(Reading(Start(DEFAULT, 0), 0), OneRun(9), TAIL);
    LastRead(Done(Reading(OneState(9), 0), TAIL));
    acts := OneRun(9) + TAIL;
  }

  lemma LastRead(r: Reading)
    requires r.partial == DEFAULT.chunk && r.link.wire == [Packet(1, DEFAULT.chunk, true), Packet(1, 40000, true)]
    requires r.link.ledger == OneState(9).ledger && r.link.tallies.Keys == {1} && r.link.retired == {}
    ensures Readable(r, 40000 + 2 * OVER) && Drops(r, 40000 + 2 * OVER)
  {
    var wire := r.link.wire;
    TwoPackets(wire[0], wire[1]);
    assert wire[..2] == wire;
    ReadDropsExactly(r, 40000 + 2 * OVER, 1);
  }
}
