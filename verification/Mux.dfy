/**
  * One client's two connections as a step relation: the daemon mints ids and writes frames on the stream
  * socket, the answers naming those ids travel on the control socket, and nothing orders the two.
  */
module Mux {
  import opened Prelude
  import opened Frames
  import opened StreamIds

  type Session = string

  // ----- The client's table and its reader -----

  datatype Table = Table(byHandle: map<Session, StreamId>, byStream: map<StreamId, Session>, next: StreamId) {
    function Remember(id: StreamId, s: Session): Table {
      Table(byHandle[s := id], byStream[id := s],
            if NextId(id).Some? && NextId(id).value > next then NextId(id).value else next)
    }

    /** The id is not freed: the watermark stays where it is. */
    function Forget(s: Session): Table
      requires s in byHandle
    {
      Table(byHandle - {s}, byStream - {byHandle[s]}, next)
    }
  }

  /** Frames held for the one id the daemon has assigned and this client has not been told. */
  datatype Pending = Pending(id: StreamId, frames: seq<Frame>)

  datatype Reader = Reader(attached: set<StreamId>, pending: Option<Pending>, out: seq<Frame>)

  predicate HeldFor(r: Reader, id: StreamId) {
    r.pending.Some? && r.pending.value.id == id
  }

  datatype Routing = Continue(reader: Reader) | Drop

  /** Deliver everything held, once the table names the id it is held for. */
  function Settle(t: Table, r: Reader): Reader {
    if r.pending.Some? && r.pending.value.id in t.byStream then
      var held := r.pending.value;
      Reader(r.attached + {held.id}, None, r.out + held.frames)
    else r
  }

  function Hold(r: Reader, f: Frame): Routing {
    match r.pending
    case None => Continue(r.(pending := Some(Pending(f.stream, [f]))))
    case Some(held) =>
      if held.id == f.stream then Continue(r.(pending := Some(held.(frames := held.frames + [f]))))
      else Drop
  }

  function Route(t: Table, r: Reader, f: Frame): Routing {
    if f.kind == Credit then Continue(r.(out := r.out + [f]))
    else if f.stream in r.attached then Continue(r.(out := r.out + [f]))
    else if f.stream in t.byStream then Continue(r.(attached := r.attached + {f.stream}, out := r.out + [f]))
    else match ClassifyUnattached(f.stream, t.next)
      case DiscardFrame => Continue(r)
      case DropConnection =>
        if f.stream != t.next then Drop
        else match Hold(r, f)
          case Drop => Drop
          case Continue(held) => Continue(Settle(t, held))
  }

  /** The pending buffer is consulted before the table. */
  function RouteOrHold(t: Table, r: Reader, f: Frame): Routing {
    if r.pending.Some? && r.pending.value.id == f.stream then Hold(r, f) else Route(t, r, f)
  }

  // ----- The whole system -----

  datatype State = State(
    next: StreamId,                     // the daemon's counter and live ids
    sinks: set<StreamId>,
    minted: map<StreamId, Session>,     // history: the session each id was minted for
    sent: map<StreamId, seq<Frame>>,    // history: what the daemon put on the wire under each id
    answers: map<StreamId, Session>,    // attach answers the client has not recorded yet
    wire: seq<Frame>,
    buffer: seq<Frame>,                 // decoded from the read in hand, not routed yet
    table: Table,
    forgotten: set<StreamId>,           // history: ids the client has detached
    reader: Reader,
    signals: set<StreamId>,             // detaches the reader has not been told of
    requests: set<StreamId>,            // detaches the daemon has not been told of
    credits: seq<StreamId>,             // credit frames on their way to the daemon
    down: bool                          // the client has dropped the connection
  )

  const START := State(FIRST, {}, map[], map[], map[], [], [], Table(map[], map[], FIRST), {},
                       Reader({}, None, []), {}, {}, [], false)

  datatype Event =
    | Attach(session: Session)
    | Send(frame: Frame)
    | Remember(id: StreamId)
    | Forget(session: Session)
    | TellReader(id: StreamId)
    | TellDaemon(id: StreamId)
    | Read(count: nat)
    | RouteNext
    | SettleHeld
    | Expire
    | Ack(id: StreamId)
    | CreditLands

  predicate Enabled(s: State, e: Event) {
    !s.down && match e
    case Attach(session) => session !in s.table.byHandle && NextId(s.next).Some?
    case Send(f) => f.stream in s.sinks && f.stream in s.sent
    case Remember(id) => id in s.answers
    case Forget(session) => session in s.table.byHandle
    case TellReader(id) => id in s.signals
    case TellDaemon(id) => id in s.requests
    case Read(count) => s.reader.pending.None? && s.buffer == [] && count <= |s.wire|
    case RouteNext => s.buffer != []
    case SettleHeld => s.reader.pending.Some? && s.reader.pending.value.id in s.table.byStream
    case Expire => s.reader.pending.Some? && s.reader.pending.value.id !in s.table.byStream
    case Ack(id) => id in s.reader.attached || id in s.table.byStream
    case CreditLands => s.credits != []
  }

  function Step(s: State, e: Event): State
    requires Enabled(s, e)
  {
    match e
    case Attach(session) =>
      s.(next := NextId(s.next).value, sinks := s.sinks + {s.next}, minted := s.minted[s.next := session],
         sent := s.sent[s.next := []], answers := s.answers[s.next := session])
    case Send(f) => s.(wire := s.wire + [f], sent := s.sent[f.stream := s.sent[f.stream] + [f]])
    case Remember(id) => s.(answers := s.answers - {id}, table := s.table.Remember(id, s.answers[id]))
    case Forget(session) =>
      var id := s.table.byHandle[session];
      s.(table := s.table.Forget(session), forgotten := s.forgotten + {id},
         signals := s.signals + {id}, requests := s.requests + {id})
    case TellReader(id) => s.(signals := s.signals - {id}, reader := s.reader.(attached := s.reader.attached - {id}))
    case TellDaemon(id) => s.(requests := s.requests - {id}, sinks := s.sinks - {id})
    case Read(count) => s.(buffer := s.wire[..count], wire := s.wire[count..])
    case RouteNext =>
      (match RouteOrHold(s.table, s.reader, s.buffer[0])
       case Drop => s.(down := true)
       case Continue(r) => s.(buffer := s.buffer[1..], reader := r))
    case SettleHeld => s.(reader := Settle(s.table, s.reader))
    case Expire => s.(down := true)
    case Ack(id) => s.(credits := s.credits + [id], reader := s.reader.(attached := s.reader.attached + {id}))
    case CreditLands => s.(credits := s.credits[1..])
  }

  /** What the daemon does with the credit frame that has just arrived. */
  function CreditVerdict(s: State): CreditOutcome
    requires s.credits != []
  {
    var id := s.credits[0];
    if id in s.sinks then Routed
    else match ClassifyUnattached(id, s.next)
      case DiscardFrame => Discarded
      case DropConnection => Dropped
  }

  predicate Runs(s: State, run: seq<Event>)
    decreases |run|
  {
    run == [] || (Enabled(s, run[0]) && Runs(Step(s, run[0]), run[1..]))
  }

  function After(s: State, run: seq<Event>): State
    requires Runs(s, run)
    decreases |run|
  {
    if run == [] then s else After(Step(s, run[0]), run[1..])
  }
}
