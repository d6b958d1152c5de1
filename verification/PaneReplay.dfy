/** A pane on the frames its stream is handed, whatever else is done to it in between. */
module PaneReplay {
  import opened Prelude
  import opened Frames
  import opened ReplayGate

  /** The next frame is handed over, or something happens to the pane that no frame brings. */
  datatype Act = Hand | Parses(answers: bool) | TimerFires | Shown | Hidden | Closed

  /** The boundary, if there is one, comes after the first `k` frames, which are the replay, and no other does. */
  predicate ReplayFirst(frames: seq<Frame>, k: nat) {
    forall i :: 0 <= i < |frames| && frames[i].kind == ReplayEnd ==> i == k
  }

  /**
    * Whenever the pane is shown, hidden or closed, however far its renderer has got when a frame comes, and whether or
    * not the boundary ever does: nothing a replayed byte provokes is let out unless the deadline opened the gate.
    */
  method Watch(frames: seq<Frame>, k: nat, acts: seq<Act>) returns (pane: Surface, leaked: bool)
    requires ReplayFirst(frames, k)
    ensures pane.Valid() && (leaked ==> pane.late)
    ensures pane.late ==> TimerFires in acts
  {
    pane := new Surface();
    leaked := false;
    var next := 0;
    for i := 0 to |acts|
      invariant fresh(pane) && pane.Valid() && next <= |frames|
      invariant pane.seen ==> k < next
      invariant leaked ==> pane.late
      invariant pane.late ==> TimerFires in acts
    {
      match acts[i] {
        case Hand =>
          if next < |frames| {
            HandOver(pane, frames[next], next < k);
            next := next + 1;
          }
        case Parses(answers) =>
          if pane.queue != [] {
            var replayed := pane.queue[0].replay;
            var forwarded := pane.Parse(answers);
            leaked := leaked || (forwarded && replayed);
          }
        case TimerFires =>
          if pane.timerArmed {
            pane.Deadline();
          }
        case Shown => pane.Show();
        case Hidden => pane.Hide();
        case Closed => pane.Dispose();
      }
    }
  }

  /** What the window does with one frame of this stream. */
  method HandOver(pane: Surface, f: Frame, replay: bool)
    requires pane.Valid() && (pane.seen ==> !replay)
    modifies pane
    ensures pane.Valid() && pane.late == old(pane.late)
    ensures pane.seen <==> old(pane.seen) || f.kind == ReplayEnd
  {
    if f.kind == Output {
      pane.Write(|f.payload|, replay);
    } else if f.kind == ReplayEnd {
      pane.ReplayEnded();
    }
  }
}
