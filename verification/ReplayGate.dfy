/** A pane that replays a session's scrollback must not answer it: how long its input gate stays shut. */
module ReplayGate {
  import opened Prelude

  const HIDDEN_BUFFER_CAP_BYTES := 256 * 1024

  /** Something handed to the renderer: `owed` says that parsing it will be reported as rendered. */
  datatype Chunk = Chunk(size: nat, replay: bool, owed: bool)

  /** The parser reset that follows a dropped buffer. */
  const RESET := Chunk(0, false, false)

  predicate NoReplay(chunks: seq<Chunk>) {
    forall c :: c in chunks ==> !c.replay
  }

  function Size(chunks: seq<Chunk>): nat {
    if chunks == [] then 0 else Size(chunks[..|chunks| - 1]) + chunks[|chunks| - 1].size
  }

  function Owed(chunks: seq<Chunk>): nat {
    if chunks == [] then 0 else (if chunks[0].owed then chunks[0].size else 0) + Owed(chunks[1..])
  }

  lemma SizeSnoc(chunks: seq<Chunk>, c: Chunk)
    ensures Size(chunks + [c]) == Size(chunks) + c.size
  {
    assert (chunks + [c])[..|chunks|] == chunks;
  }

  lemma {:induction false} OwedSnoc(chunks: seq<Chunk>, c: Chunk)
    ensures Owed(chunks + [c]) == Owed(chunks) + if c.owed then c.size else 0
  {
    if chunks != [] {
      assert (chunks + [c])[1..] == chunks[1..] + [c];
      OwedSnoc(chunks[1..], c);
    }
  }

  class Surface {
    /** Whether there is a renderer, and what it has been given and has not parsed. It parses in order. */
    var visible: bool
    var queue: seq<Chunk>

    /** Output collected while there is none. */
    var hidden: seq<Chunk>
    var hiddenBytes: nat
    var resetPending: bool

    var disposed: bool
    var inputOpen: bool
    var writesIssued: nat
    var writesParsed: nat
    var openInputAfter: Option<nat>
    var boundaryInHidden: Option<nat>
    var timerArmed: bool

    /** Bytes reported rendered, which is what returns credit to the daemon. */
    var acked: nat

    /** The boundary has arrived; the deadline opened the gate; bytes written; bytes lost in a renderer's queue. */
    ghost var seen: bool
    ghost var late: bool
    ghost var written: nat
    ghost var lost: nat

    ghost predicate Valid()
      reads this
    {
      && writesParsed + |queue| == writesIssued
      && (visible ==> hidden == [] && boundaryInHidden.None? && !disposed)
      && (!visible ==> queue == [] && openInputAfter.None?)
      && hiddenBytes == Size(hidden) && hiddenBytes <= HIDDEN_BUFFER_CAP_BYTES
      && (forall c :: c in hidden ==> !c.owed)
      && (timerArmed <==> !seen && !inputOpen && !disposed)
      && written == acked + Owed(queue) + lost
      && (disposed || Gate())
    }

    /** Where the seam between replay and live output is, at every moment before the gate opens. */
    ghost predicate Gate()
      reads this
    {
      && writesParsed + |queue| == writesIssued
      && (!seen ==> openInputAfter.None? && boundaryInHidden.None? && (inputOpen ==> late))
      && (inputOpen ==> openInputAfter.None? && boundaryInHidden.None?)
      && (seen && !inputOpen ==> if visible then openInputAfter.Some? else boundaryInHidden.Some?)
      && (openInputAfter.Some? ==>
            && writesParsed < openInputAfter.value <= writesIssued
            && NoReplay(queue[openInputAfter.value - writesParsed..]))
      && (boundaryInHidden.Some? ==>
            boundaryInHidden.value <= |hidden| && NoReplay(hidden[boundaryInHidden.value..]))
      && (inputOpen && !late ==> NoReplay(queue) && NoReplay(hidden))
    }

    constructor ()
      ensures Valid() && !visible && !disposed && !inputOpen && !seen && !late && written == 0 && lost == 0
    {
      visible, queue, hidden, hiddenBytes, resetPending := false, [], [], 0, false;
      disposed, inputOpen, writesIssued, writesParsed := false, false, 0, 0;
      openInputAfter, boundaryInHidden, timerArmed, acked := None, None, true, 0;
      seen, late, written, lost := false, false, 0, 0;
    }

    /** Output arrives: replay before the boundary, live after it. A hidden pane reports it at once. */
    method Write(size: nat, replay: bool)
      requires Valid() && (seen ==> !replay)
      modifies this
      ensures Valid() && seen == old(seen) && late == old(late) && inputOpen == old(inputOpen)
      ensures visible == old(visible) && disposed == old(disposed)
      ensures written == old(written) + (if disposed then 0 else size) && lost == old(lost)
      ensures acked == old(acked) + (if visible || disposed then 0 else size)
      ensures disposed || size == 0 ==> unchanged(this)
      ensures !disposed && size > 0 && visible ==>
        queue == old(queue) + [Chunk(size, replay, true)] && hidden == old(hidden)
      ensures !disposed && size > 0 && !visible && old(hiddenBytes) + size <= 256 * 1024 ==>
        hidden == old(hidden) + [Chunk(size, replay, false)] && resetPending == old(resetPending)
      ensures !disposed && size > 0 && !visible && old(hiddenBytes) + size > 256 * 1024 ==>
        hidden == [] && resetPending
      ensures !visible ==> queue == old(queue)
    {
      if disposed || size == 0 {
        return;
      }
      written := written + size;
      if visible {
        Issue(Chunk(size, replay, true));
        return;
      }
      BufferWhileHidden(Chunk(size, replay, false));
      acked := acked + size;
    }

    /** Collect output without a renderer. On overflow the whole buffer goes, and the seam to its front. */
    method BufferWhileHidden(c: Chunk)
      modifies this`hidden, this`hiddenBytes, this`resetPending, this`boundaryInHidden
      ensures if old(hiddenBytes) + c.size > HIDDEN_BUFFER_CAP_BYTES
              then hidden == [] && hiddenBytes == 0 && resetPending
                   && boundaryInHidden == if old(boundaryInHidden).Some? then Some(0) else None
              else hidden == old(hidden) + [c] && hiddenBytes == old(hiddenBytes) + c.size
                   && unchanged(this`resetPending, this`boundaryInHidden)
                   && Size(hidden) == Size(old(hidden)) + c.size
    {
      if hiddenBytes + c.size > HIDDEN_BUFFER_CAP_BYTES {
        hidden, hiddenBytes, resetPending := [], 0, true;
        if boundaryInHidden.Some? {
          boundaryInHidden := Some(0);
        }
        return;
      }
      SizeSnoc(hidden, c);
      hidden := hidden + [c];
      hiddenBytes := hiddenBytes + c.size;
    }

    /** Hand one more chunk to the renderer, counting it in. */
    method Issue(c: Chunk)
      modifies this`queue, this`writesIssued
      ensures queue == old(queue) + [c] && writesIssued == old(writesIssued) + 1
      ensures Owed(queue) == Owed(old(queue)) + if c.owed then c.size else 0
    {
      OwedSnoc(queue, c);
      queue := queue + [c];
      writesIssued := writesIssued + 1;
    }

    /** The boundary arrives. The gate waits for everything issued before it to be parsed. */
    method ReplayEnded()
      requires Valid()
      modifies this
      ensures Valid() && seen && late == old(late)
      ensures visible == old(visible) && disposed == old(disposed) && queue == old(queue)
      ensures hidden == old(hidden) && resetPending == old(resetPending)
      ensures written == old(written) && lost == old(lost) && acked == old(acked)
      ensures !old(inputOpen) && !disposed ==> (inputOpen <==> visible && queue == [])
    {
      seen := true;
      if inputOpen || disposed {
        timerArmed := false;
        return;
      }
      timerArmed := false;
      if !visible {
        boundaryInHidden := Some(|hidden|);
        return;
      }
      openInputAfter := Some(writesIssued);
      OpenInputIfReplayParsed();
    }

    method OpenInputIfReplayParsed()
      modifies this`inputOpen, this`openInputAfter, this`boundaryInHidden, this`timerArmed
      ensures if old(openInputAfter).Some? && old(openInputAfter).value <= writesParsed
              then inputOpen && openInputAfter.None? && boundaryInHidden.None? && !timerArmed
              else unchanged(this)
    {
      if openInputAfter.None? || writesParsed < openInputAfter.value {
        return;
      }
      OpenInput();
    }

    method OpenInput()
      modifies this`inputOpen, this`openInputAfter, this`boundaryInHidden, this`timerArmed
      ensures inputOpen && openInputAfter.None? && boundaryInHidden.None? && !timerArmed
    {
      inputOpen, openInputAfter, boundaryInHidden, timerArmed := true, None, None, false;
    }

    /**
      * The renderer parses its next chunk, perhaps answering something in it, and calls back. Unless the
      * deadline has forced the gate, nothing a replayed chunk provokes gets out.
      */
    method Parse(answers: bool) returns (forwarded: bool)
      requires Valid() && queue != []
      modifies this
      ensures Valid() && seen == old(seen) && late == old(late) && visible == old(visible)
      ensures forwarded <==> answers && old(inputOpen)
      ensures old(queue)[0].replay && !late ==> !forwarded
      ensures queue == old(queue)[1..] && written == old(written) && lost == old(lost)
      ensures acked == old(acked) + if old(queue)[0].owed then old(queue)[0].size else 0
      ensures inputOpen <==> old(inputOpen) || old(openInputAfter) == Some(old(writesParsed) + 1)
      ensures seen && queue == [] ==> inputOpen
    {
      forwarded := answers && inputOpen;
      var c := queue[0];
      assert c in queue;
      queue := queue[1..];
      writesParsed := writesParsed + 1;
      if c.owed {
        acked := acked + c.size;
      }
      OpenInputIfReplayParsed();
    }

    /** The boundary never came: the gate opens anyway, and what it lets out from now on is not vouched for. */
    method Deadline()
      requires Valid() && timerArmed
      modifies this
      ensures Valid() && inputOpen && late && !seen && !old(seen) && !timerArmed
      ensures unchanged(this`visible, this`queue, this`hidden, this`written, this`acked, this`lost)
    {
      timerArmed := false;
      OpenInput();
      late := true;
    }

    /** Give the pane a renderer, and feed it what was collected without one. */
    method Show()
      requires Valid()
      modifies this
      ensures Valid() && seen == old(seen) && late == old(late) && disposed == old(disposed)
      ensures written == old(written) && lost == old(lost) && acked == old(acked)
      ensures visible == !disposed
      ensures old(inputOpen) ==> inputOpen
      ensures old(!visible && !disposed) ==>
        hidden == [] && !resetPending && queue == (if old(resetPending) then [RESET] else []) + old(hidden)
      ensures old(visible || disposed) ==> unchanged(this)
    {
      if disposed || visible {
        return;
      }
      visible := true;
      DrainHiddenBuffer();
    }

    /** The seam goes between the two writes it falls between: replay before it, live output after it. */
    method DrainHiddenBuffer()
      requires visible && !disposed && queue == [] && openInputAfter.None? && writesParsed == writesIssued
      requires hiddenBytes == Size(hidden) && (forall c :: c in hidden ==> !c.owed)
      requires (timerArmed <==> !seen && !inputOpen) && written == acked + lost && Gate'()
      modifies this
      ensures Valid() && seen == old(seen) && late == old(late) && disposed == old(disposed) && visible
      ensures written == old(written) && lost == old(lost) && acked == old(acked)
      ensures old(inputOpen) ==> inputOpen
      ensures hidden == [] && !resetPending && queue == (if old(resetPending) then [RESET] else []) + old(hidden)
    {
      if resetPending {
        Issue(RESET);
      }
      var seam := boundaryInHidden;
      boundaryInHidden := None;
      IssueHidden(seam);
      FinishDrain(seam);
    }

    /** The buffer is empty, the reset it may have asked for is written, and the gate may already be due. */
    method FinishDrain(seam: Option<nat>)
      requires visible && !disposed && writesParsed + |queue| == writesIssued && boundaryInHidden.None?
      requires (timerArmed <==> !seen && !inputOpen) && written == acked + lost && Owed(queue) == 0
      requires openInputAfter.Some? <==> seam.Some?
      requires !seen ==> seam.None? && (inputOpen ==> late)
      requires inputOpen ==> seam.None? && (late || NoReplay(queue))
      requires seen && !inputOpen ==> seam.Some?
      requires seam.Some? ==>
        && writesParsed <= openInputAfter.value <= writesIssued
        && NoReplay(queue[openInputAfter.value - writesParsed..])
      modifies this
      ensures Valid() && visible
      ensures unchanged(this`seen, this`late, this`disposed, this`written, this`lost, this`acked)
      ensures hidden == [] && !resetPending && queue == old(queue)
      ensures old(inputOpen) ==> inputOpen
    {
      assert seam.Some? && openInputAfter.value <= writesParsed ==> NoReplay(queue) by {
        assert queue[0..] == queue;
      }
      hidden, hiddenBytes := [], 0;
      assert NoReplay(hidden) && Size(hidden) == 0;
      if seam.Some? {
        OpenInputIfReplayParsed();
      }
      resetPending := false;
      assert Gate();
    }

    /** Feed the renderer the whole hidden buffer, marking how much had been issued where the seam falls. */
    method IssueHidden(seam: Option<nat>)
      requires openInputAfter.None? && forall c :: c in hidden ==> !c.owed
      requires writesIssued == writesParsed + |queue| && NoReplay(queue) && (seam.Some? ==> seam.value <= |hidden|)
      modifies this`queue, this`writesIssued, this`openInputAfter
      ensures writesIssued == writesParsed + |queue| && Owed(queue) == Owed(old(queue)) && queue == old(queue) + hidden
      ensures openInputAfter.Some? <==> seam.Some?
      ensures seam.Some? ==>
        && writesParsed <= openInputAfter.value <= writesIssued
        && queue[openInputAfter.value - writesParsed..] == hidden[seam.value..]
      ensures NoReplay(hidden) ==> NoReplay(queue)
    {
      for i := 0 to |hidden|
        invariant queue == old(queue) + hidden[..i] && writesIssued == old(writesIssued) + i
        invariant Owed(queue) == Owed(old(queue))
        invariant openInputAfter == if seam.None? || i <= seam.value then None else Some(old(writesIssued) + seam.value)
      {
        if seam == Some(i) {
          openInputAfter := Some(writesIssued);
        }
        Issue(hidden[i]);
        assert hidden[..i + 1] == hidden[..i] + [hidden[i]];
      }
      assert hidden[..|hidden|] == hidden;
      if seam.Some? && |hidden| <= seam.value {
        openInputAfter := Some(writesIssued);
      }
      assert seam.Some? ==> queue[|old(queue)| + seam.value..] == hidden[seam.value..];
    }

    /** What `Gate` says of a pane whose renderer has just been made and given nothing. */
    ghost predicate Gate'()
      reads this
    {
      && (!seen ==> boundaryInHidden.None? && (inputOpen ==> late))
      && (inputOpen ==> boundaryInHidden.None?)
      && (seen && !inputOpen ==> boundaryInHidden.Some?)
      && (boundaryInHidden.Some? ==>
            boundaryInHidden.value <= |hidden| && NoReplay(hidden[boundaryInHidden.value..]))
      && (inputOpen && !late ==> NoReplay(hidden))
    }

    /** Take the renderer away. Its queue dies with it, and a boundary already seen takes effect. */
    method Hide()
      requires Valid()
      modifies this
      ensures Valid() && seen == old(seen) && late == old(late) && disposed == old(disposed) && !visible
      ensures written == old(written) && acked == old(acked) && lost == old(lost) + Owed(old(queue))
      ensures inputOpen <==> old(inputOpen) || (old(visible) && seen)
      ensures queue == [] && hidden == old(hidden) && resetPending == old(resetPending)
    {
      if !visible {
        return;
      }
      visible := false;
      lost := lost + Owed(queue);
      queue := [];
      writesIssued, writesParsed := 0, 0;
      if openInputAfter.Some? {
        OpenInput();
      }
    }

    /** The pane is closed: a timer left armed would fire after a reconnect had replaced it. */
    method Dispose()
      requires Valid()
      modifies this
      ensures Valid() && disposed && !visible && !timerArmed && seen == old(seen) && late == old(late)
      ensures !old(disposed) ==> queue == hidden == []
    {
      if disposed {
        return;
      }
      Hide();
      disposed := true;
      hidden, hiddenBytes, timerArmed := [], 0, false;
    }
  }
}
