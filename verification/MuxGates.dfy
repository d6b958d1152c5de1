/** Which attach's boundary opens which gate, when one session is attached, detached and attached again. */
module MuxGates {
  import opened Prelude
  import opened Frames
  import opened StreamIds
  import opened Mux
  import opened MuxSafety
  import opened MuxOrder

  /** The boundary of the stream `id` has been handed to the window, which is what its gate waits for. */
  predicate Opened(out: seq<Frame>, id: StreamId) {
    exists f :: f in out && f.kind == ReplayEnd && f.stream == id
  }

  /** As `Replay` sends it: a boundary after the first `n` frames, and no other. */
  predicate Marked(sent: seq<Frame>, n: nat) {
    n < |sent| && forall i :: 0 <= i < |sent| ==> (sent[i].kind == ReplayEnd <==> i == n)
  }

  /** Or as much of that as has been sent, with a boundary that may have been lost. */
  predicate Marking(sent: seq<Frame>, n: nat) {
    n <= |sent| && forall i :: 0 <= i < |sent| && sent[i].kind == ReplayEnd ==> i == n
  }

  /**
    * In every run a gate opens only if the daemon has sent a boundary under that attach's own id. A boundary of an
    * earlier attach, however late, is not one: the later attach of the same session has another id.
    */
  lemma OnlyItsOwnBoundary(run: seq<Event>, id: StreamId)
    requires Runs(START, run)
    ensures var s := After(START, run);
      Opened(s.reader.out, id) ==> id in s.minted && id in s.sent && Opened(s.sent[id], id)
  {
    NothingIsMisrouted(run, id);
    RunKnown(START, run);
    var s := After(START, run);
    if Opened(s.reader.out, id) {
      var f :| f in s.reader.out && f.kind == ReplayEnd && f.stream == id;
      assert f in s.sent[id];
    }
  }

  /** A frame of one stream leaves the gate of every other as it was. */
  lemma OtherGatesStay(s: State, e: Event, id: StreamId)
    requires Enabled(s, e) && Opened(Step(s, e).reader.out, id) && !Opened(s.reader.out, id)
    ensures (e == RouteNext && s.buffer[0].stream == id && s.buffer[0].kind == ReplayEnd)
            || (s.reader.pending.Some? && Opened(s.reader.pending.value.frames, id))
  {
    var f :| f in Step(s, e).reader.out && f.kind == ReplayEnd && f.stream == id;
    assert f !in s.reader.out;
  }

  lemma {:induction false} OfMember(frames: seq<Frame>, id: StreamId, f: Frame)
    ensures f in Of(frames, id) <==> f in frames && f.kind != Credit && f.stream == id
  {
    if frames != [] {
      OfMember(frames[1..], id, f);
      assert frames == [frames[0]] + frames[1..];
    }
  }

  lemma {:induction false} NoneAmongNone(a: seq<Frame>, b: seq<Frame>)
    requires Among(a, b) && forall f :: f in b ==> f.kind != ReplayEnd
    ensures forall i :: 0 <= i < |a| ==> a[i].kind != ReplayEnd
  {
    AmongMember(a, b);
  }

  lemma OnlyTheFirst(a: seq<Frame>, b: seq<Frame>)
    requires Among(a, b) && forall i :: 1 <= i < |b| ==> b[i].kind != ReplayEnd
    ensures forall i :: 1 <= i < |a| ==> a[i].kind != ReplayEnd
  {
    if a != [] {
      assert forall f :: f in b[1..] ==> f.kind != ReplayEnd;
      if a[0] == b[0] && Among(a[1..], b[1..]) {
        NoneAmongNone(a[1..], b[1..]);
        assert forall i :: 1 <= i < |a| ==> a[i] == a[1..][i - 1];
      } else {
        NoneAmongNone(a, b[1..]);
      }
    }
  }

  /**
    * In every run, whatever is lost: the first `k` frames a pane is handed are from the replay and the others from
    * after it, and its boundary, if it is handed over at all, comes between. Nothing that follows it is replay.
    */
  lemma NothingReplayedAfterTheBoundary(run: seq<Event>, id: StreamId, n: nat) returns (k: nat)
    requires Runs(START, run) && id in After(START, run).sent
    requires Marking(Of(After(START, run).sent[id], id), n)
    ensures var s := After(START, run);
      var (sent, out) := (Of(s.sent[id], id), Of(s.reader.out, id));
      && k <= |out| && Among(out[..k], sent[..n]) && Among(out[k..], sent[n..])
      && forall i :: 0 <= i < |out| && out[i].kind == ReplayEnd ==> i == k
  {
    NeverOutOfOrder(run, id);
    var s := After(START, run);
    k := CutAtTheBoundary(Of(s.sent[id], id), Of(s.reader.out, id), n);
  }

  lemma CutAtTheBoundary(sent: seq<Frame>, out: seq<Frame>, n: nat) returns (k: nat)
    requires Among(out, sent) && Marking(sent, n)
    ensures k <= |out| && Among(out[..k], sent[..n]) && Among(out[k..], sent[n..])
    ensures forall i :: 0 <= i < |out| && out[i].kind == ReplayEnd ==> i == k
  {
    k := AmongCut(out, sent, n);
    HalvesMarked(sent, n);
    NoneAmongNone(out[..k], sent[..n]);
    OnlyTheFirst(out[k..], sent[n..]);
    OnlyAtTheCut(out, k);
  }

  lemma HalvesMarked(sent: seq<Frame>, n: nat)
    requires Marking(sent, n)
    ensures forall f :: f in sent[..n] ==> f.kind != ReplayEnd
    ensures forall i :: 1 <= i < |sent[n..]| ==> sent[n..][i].kind != ReplayEnd
  {
  }

  lemma OnlyAtTheCut(out: seq<Frame>, k: nat)
    requires k <= |out| && (forall i :: 0 <= i < k ==> out[..k][i].kind != ReplayEnd)
    requires forall i :: 1 <= i < |out| - k ==> out[k..][i].kind != ReplayEnd
    ensures forall i :: 0 <= i < |out| && out[i].kind == ReplayEnd ==> i == k
  {
    assert forall i :: 0 <= i < k ==> out[i] == out[..k][i];
    assert forall i :: k <= i < |out| ==> out[i] == out[k..][i - k];
  }

  /**
    * When attaches are answered one at a time, a gate that is open has had its whole replay handed over before the
    * boundary, so nothing that is handed over afterwards is replay.
    */
  lemma GateWaitsForTheReplay(run: seq<Event>, id: StreamId, n: nat)
    requires SerialRuns(START, run) && Runs(START, run) && id in After(START, run).sent
    requires Marked(Of(After(START, run).sent[id], id), n)
    ensures var s := After(START, run);
      var (sent, out) := (Of(s.sent[id], id), Of(s.reader.out, id));
      && (Opened(s.reader.out, id) <==> n < |out|)
      && (Opened(s.reader.out, id) ==> sent[..n] == out[..n] && out[n].kind == ReplayEnd)
  {
    SerialAttachesLoseNothing(run, id);
    var s := After(START, run);
    PrefixOpened(Of(s.sent[id], id), Of(s.reader.out, id), s.reader.out, id, n);
  }

  lemma PrefixOpened(sent: seq<Frame>, out: seq<Frame>, all: seq<Frame>, id: StreamId, n: nat)
    requires Marked(sent, n) && out <= sent && out == Of(all, id)
    ensures Opened(all, id) <==> n < |out|
    ensures n < |out| ==> sent[..n] == out[..n] && out[n].kind == ReplayEnd
  {
    if Opened(all, id) {
      var f :| f in all && f.kind == ReplayEnd && f.stream == id;
      OfMember(all, id, f);
      var i :| 0 <= i < |out| && out[i] == f;
      assert sent[i] == f;
    }
    if n < |out| {
      assert out[n] == sent[n];
      OfMember(all, id, out[n]);
    }
  }
}
