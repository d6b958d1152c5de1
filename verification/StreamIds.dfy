/** Stream ids: minted upwards on one connection, never reused, so a watermark tells retired from bogus. */
module StreamIds {
  import opened Prelude

  type StreamId = U32

  const RESERVED: StreamId := 0
  const FIRST: StreamId := 1

  /** The next id to hand out, or nothing at the ceiling. */
  function NextId(id: StreamId): Option<StreamId> {
    if id == U32_MAX then None else Some(id + 1)
  }

  predicate WasAssigned(id: StreamId, nextToAssign: StreamId) {
    id != RESERVED && id < nextToAssign
  }

  datatype UnattachedFrame = DiscardFrame | DropConnection

  function ClassifyUnattached(id: StreamId, nextToAssign: StreamId): UnattachedFrame {
    if WasAssigned(id, nextToAssign) then DiscardFrame else DropConnection
  }

  datatype CreditOutcome = Routed | Discarded | Dropped

  /** One stream connection as the daemon keeps it: its own counter and the ids that are live on it. */
  class StreamConnection {
    var nextId: StreamId
    var sinks: set<StreamId>

    /** Every id handed out since the connection was bound. */
    ghost var minted: set<StreamId>

    ghost predicate Valid()
      reads this
    {
      && FIRST <= nextId
      && (forall id: StreamId :: WasAssigned(id, nextId) <==> id in minted)
      && sinks <= minted
    }

    constructor ()
      ensures Valid() && nextId == FIRST && sinks == {} && minted == {}
    {
      nextId, sinks, minted := FIRST, {}, {};
    }

    /** Hand out an id nobody has had, unless the counter has nowhere to go. */
    method Attach() returns (id: Option<StreamId>)
      requires Valid()
      modifies this
      ensures Valid()
      ensures id.None? <==> old(nextId) == U32_MAX
      ensures id.None? ==> unchanged(this)
      ensures id.Some? ==> id.value !in old(minted) && minted == old(minted) + {id.value}
                           && sinks == old(sinks) + {id.value}
    {
      var next := NextId(nextId);
      if next.None? {
        return None;
      }
      id := Some(nextId);
      sinks := sinks + {nextId};
      minted := minted + {nextId};
      nextId := next.value;
    }

    /** Retire an id. It stays minted. */
    method Detach(id: StreamId) returns (there: bool)
      requires Valid()
      modifies this`sinks
      ensures Valid()
      ensures there <==> id in old(sinks)
      ensures sinks == old(sinks) - {id}
    {
      there := id in sinks;
      sinks := sinks - {id};
    }

    /** A credit frame drops the connection exactly when it names an id that was never handed out. */
    method ApplyCredit(id: StreamId) returns (outcome: CreditOutcome)
      requires Valid()
      ensures outcome == Routed <==> id in sinks
      ensures outcome == Discarded <==> id in minted && id !in sinks
      ensures outcome == Dropped <==> id !in minted
    {
      if id in sinks {
        return Routed;
      }
      match ClassifyUnattached(id, nextId)
      case DiscardFrame =>
        outcome := Discarded;
      case DropConnection =>
        outcome := Dropped;
    }
  }
}
