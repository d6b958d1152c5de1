# Nysia, in Dafny

Nysia keeps terminal sessions in a daemon and shows them in a window. This project models the parts of it that have
state, branching or arithmetic that several functions have to agree about, and proves what those parts keep.

**The wire.** One socket carries every pane's output. `Frames` is the nine-byte header codec and `FrameDecoding` the
decoder that reassembles frames from any pieces. `StreamIds` is the daemon's counter. `Mux` is the whole attach and
detach protocol as a step relation: a daemon, a window, a control connection and a stream connection with no order
between them. `MuxSafety`, `MuxOrder` and `MuxGates` say what its runs keep, `MuxVerdicts` when exactly a frame is
dropped on, thrown away or held for good and that a detach reaches both sides, and `MuxExamples` holds runs that go wrong.

**The credit window.** `Credit` holds the two ends: the daemon's `StreamSink` and the window's `CreditLedger`.
`CreditRuns` runs them against each other over a queue each way; `CreditReads` cuts what is on the wire into reads, with
the reader's gate asked once for each; `CreditGuards` is what a daemon can look at so that nothing is refused;
`CreditStalls` and `CreditStuck` decide when credit can get stuck, and that it stays so. `Pump` is the loop that feeds
one session's output to every sink watching it, in steps that an attach can fall between, `ReplayRing` what an attach
replays, and `PumpSeams` two ways of falling between. `ReplayGate` is the pane that must not answer the scrollback it
replays, and `PaneReplay` that pane on the frames its stream is handed.

**Worktrees.** `Porcelain` reads `git worktree list --porcelain -z`, `Slug` names a directory, `Worktrees` marks the
worktree a folder is in and finds or makes the one for a branch, and `WorktreeRuns` takes that through every order of
calls and of what anybody else does to the repository.

**The labeler.** `LabelConfig` compiles a config tree into blocks, `LabelMatching` checks them, `LabelMeaning` says what
a list of rules means without compiling it, `LabelAccepted` and `LabelErrors` which configs are accepted and what the
others are refused for, `LabelMonotone` says what one glob more or less can change, and `Liveness`
and `DeadPieces` take a config apart, over the trees of `YamlPaths`, in the order of `PieceOrder`.

**Identities.** `ProjectIds` is the FNV-1a digest (section 2, "FNV Basics", of the Eastlake FNV specification, 128 bits)
of a path in one spelling, printed as hex; `KnownDigests` computes two published digests, and `PathSpellings` says what
the spelling is. `Identity` is the composed pane and incarnation ids.

`Prelude` and `Sums` hold options, bytes, 32-bit integers, and sums over a map.

Code that changes state in the source is a class or a method with a loop here, proved against a function, and the
properties are proved about the function. The rest is functions and lemmas.

## Where the code and what is said of it part

Each of these follows the code, and each is a lemma or a contract.

- The daemon sends whenever a stream's allowance is above zero (`crates/nysia-core/src/rpc/stream.rs:267-301`), so it
  can overshoot by most of a chunk; the window's ledger treats any overshoot as fatal, and the gate that is to keep the
  reader from getting that far is asked once a read, not once a frame. Under the default window a stream that is alone
  can be dropped in its eleventh frame, when the read that completes the tenth completes it too
  (`CreditReads.OneStreamIsDropped`), and with a second pane open no luck with reads is needed
  (`CreditStalls.FloodDropsTheConnection`). `CreditReads.DeliveredExactly` and `CreditReads.ReadDropsExactly` say when,
  and `CreditGuards.GuardedNeverRefused` what the daemon would have to look at instead.
- The window's ledger is charged for every payload it delivers, the daemon only for output; the difference is carried in
  the books as `extra` (`CreditRuns.CreditIsConserved`) and never comes back while the stream is open
  (`CreditGuards.ExtraIsNeverReturned`, `CreditGuards.ExtrasStarveTheBudget`).
- A coherent window can be one that sticks: coherence asks neither for an opening allowance nor for a batch that fits in
  it (`CreditStalls.StreamSticksExactly`, `CreditStalls.CoherentAndStuck`).
- An attach reads the replay ring under one lock and joins the pump's list under another, with the pump free to run in
  between. It meets the live output at a seam exactly when the pump's buffer starts, at the join, where the session had
  got to when the ring was read; joined earlier, the pane repeats what lies between, joined later, it never shows it
  (`Pump.Pump.Attach`, `Pump.Pump.SeamExactly`). Both happen with nothing pending (`PumpSeams.JoinsEarly`,
  `PumpSeams.JoinsLate`).
- The watermark that tells a detached id from one never handed out is only as good as the answers it was made from. With
  two attaches in flight the window drops the connection, or throws away a live pane's first frames
  (`MuxExamples.TwoAttachesDropTheConnection`, `MuxExamples.TwoAttachesLoseAFrame`); `MuxVerdicts.DropsExactly` and
  `MuxVerdicts.ThrownExactly` say when, and recording answers in the order the ids were handed out prevents the second
  (`MuxVerdicts.InOrderKeepsLiveFrames`). A frame under the very next id, never handed out, is held and not dropped on,
  and goes to the session that gets the id (`MuxVerdicts.BogusExactly`, `MuxVerdicts.BogusIsDelivered`).
- A pane closed while its frames are held stops every pane until the deadline (`MuxExamples.ClosedWhileHeld`,
  `MuxExamples.DoomedForEver`), and that is the only way there (`MuxVerdicts.DoomedExactly`); not closing a pane that
  frames are held for prevents it (`MuxVerdicts.CarefulNeverDooms`).
- Hiding a pane discards what its renderer had queued, and those bytes are never reported
  (`ReplayGate.Surface.Hide`).
- A slug of a reserved name with an extension is still a reserved name (`Slug.StillReserved`, `Slug.NulTxt`).
- A worktree whose directory was deleted still holds its path in git, and the search for a free name looks only at the
  disk: every other branch of the same slug then fails, with eight names free (`WorktreeRuns.MissingDirectoryBlocks`).
- A branch above or below one that is there does not exist and cannot be made, and starting it fails only after Nysia's
  directory has been made (`WorktreeRuns.BranchBelowBlocks`). `WorktreeRuns.CanBeGivenExactly` puts both together.
- A worktree on a ref outside `refs/heads/` is adopted for the branch that has the ref's whole name
  (`WorktreeRuns.AdoptsTheWrongOne`).
- The Windows form of a path is not always a fixed point, and a trailing separator can complete the prefix that is
  stripped (`ProjectIds.NormalisedTwice`, `ProjectIds.TrailingSeparator`).
- Windows paths that differ only in case do not always have one id: only the capital spelling of a verbatim share is
  taken for one (`PathSpellings.CaseExactly`).
- A piece of a labeler config can be reported dead, or not, because of what a label is called: an empty name, a `|` in
  it, or the word for a refusal (`DeadPieces.NamelessHides`, `DeadPieces.BarHides`, `DeadPieces.NameOfRefusalHides`).
  A `+` in a name is harmless, because taking one piece out changes one label only (`DeadPieces.RowTells`).

## Model

| member | source | states |
|---|---|---|
| `Frames.ByteVec.EncodeInto` | crates/nysia-proto/src/frame.rs:290-308 | appends one whole encoding, or refuses and leaves the buffer as it was |
| `Frames.HeaderBytes` | crates/nysia-proto/src/frame.rs:153-203 | the nine bytes one by one: a kind is its number from 1 to 7, and the next two fours are the id and the length, most significant byte first |
| `Frames.RefusedFor` | crates/nysia-proto/src/frame.rs:290-308 | which frames are refused and with which error, the reserved id before the length |
| `Frames.CorruptFor` | crates/nysia-proto/src/frame.rs:346-380 | which buffers are corrupt and for what, of the bytes themselves, and that each is seen as soon as the bytes that settle it are there |
| `Frames.DecodeEncode` | crates/nysia-proto/src/frame.rs:346-380 | an encoding with anything behind it decodes to its frame and length, and every proper prefix of it waits |
| `Frames.EncodeDecode` | crates/nysia-proto/src/frame.rs:346-380 | a buffer decodes to a frame only if it begins with that frame's encoding, so encodings are canonical |
| `Frames.DecodeStable` | crates/nysia-proto/src/frame.rs:346-380 | a frame or an error, once decoded, is not changed by bytes that arrive behind it |
| `Frames.WaitingCanFinish` | crates/nysia-proto/src/frame.rs:346-380 | a waiting buffer can still become a frame exactly when the length bytes seen so far, filled up with zeros, are within the ceiling |
| `FrameDecoding.FrameDecoder.NextFrame` | crates/nysia-proto/src/frame.rs:420-459 | takes the frame at the front and no more, or leaves the bytes alone |
| `FrameDecoding.FrameDecoder.TakeAll` | apps/desktop/src-tauri/src/daemon/stream.rs:366-385 | draining the decoder gives the frames, the rest and the verdict the buffer means as a whole |
| `FrameDecoding.ReadChunks` | apps/desktop/src-tauri/src/daemon/stream.rs:275-387 | however a byte string is cut into reads, its frames and its final verdict are those of the whole |
| `FrameDecoding.DrainSplit` | crates/nysia-proto/src/frame.rs:420-459 | a waiting decoder carries on from what it held; a broken one keeps its bytes and its error whatever is pushed |
| `FrameDecoding.DrainKeepsEveryByte` | crates/nysia-proto/src/frame.rs:420-459 | the bytes pushed are the encodings of the frames given out and then the rest, which while waiting is shorter than one largest frame |
| `FrameDecoding.DrainEncodeAll` | crates/nysia-proto/src/frame.rs:290-380 | any list of frames that may be sent comes back exactly from its encodings, with an empty buffer |
| `FrameDecoding.EncodeAllInjective` | crates/nysia-proto/src/frame.rs:290-319 | no two lists of frames have one encoding |
| `Credit.StreamSink.Send` | crates/nysia-core/src/rpc/stream.rs:267-301 | when output is refused, what is charged for a frame that goes, and that nothing changes otherwise |
| `Credit.StreamSink.Replenish` | crates/nysia-core/src/rpc/stream.rs:224-239 | an ack raises the allowance by what it acks, or to the ceiling |
| `Credit.StreamSink.SendFrom` | crates/nysia-core/src/rpc/session.rs:1536-1586 | what goes out is output, in order, exactly the bytes passed over, in chunks of which only the last of all may be short; it stops short only when closed, blocked or full |
| `Credit.StreamSink.Offer` | crates/nysia-core/src/rpc/session.rs:1536-1586 | a sink goes on from where it had got to, and stops short only when blocked or full |
| `Credit.StreamSink.Replay` | crates/nysia-core/src/rpc/session.rs:711-759 | the grant first, a beginning of the replay that stops short only when closed, blocked or full, in frames no larger than the chunk, and the boundary last and once; only a full queue or a client that has gone can lose the grant or the boundary |
| `Credit.EachIsAsked` | crates/nysia-proto/src/credit.rs:99-115 | each of the things coherence asks is asked: seven windows, each wrong in one of them only, and none coherent |
| `Credit.CreditLedger.Adopt` | apps/desktop/src-tauri/src/channel/credit.rs:153-159 | an incoherent window is ignored |
| `Credit.CreditLedger.Attach` | apps/desktop/src-tauri/src/channel/credit.rs:165-172 | a stream seen for the first time opens with its allowance; one already there is left as it was |
| `Credit.CreditLedger.Detach` | apps/desktop/src-tauri/src/channel/credit.rs:179-185 | the shared budget gets back what the stream had not rendered, up to its ceiling |
| `Credit.CreditLedger.Receive` | apps/desktop/src-tauri/src/channel/credit.rs:242-262 | an overshoot or an unknown stream is refused, the smaller of the two budgets named, and changes nothing; anything else is charged to both budgets |
| `Credit.CreditLedger.Render` | apps/desktop/src-tauri/src/channel/credit.rs:275-306 | a report past what was received is refused; a full batch is drained at once |
| `Credit.CreditLedger.DrainAck` | apps/desktop/src-tauri/src/channel/credit.rs:318-351 | one ack for all a stream is owed, nothing when nothing is owed, and all the shared budget is owed |
| `Credit.CreditLedger.FlushAcks` | apps/desktop/src-tauri/src/daemon/stream.rs:262-272 | a flush acks exactly the streams that are owed, what they are owed, and leaves no stream and no budget owed |
| `CreditRuns.StepKeeps` | apps/desktop/src-tauri/src/channel/credit.rs:98-366 | every step of either end keeps the books of every stream that is held and of the shared budget |
| `CreditRuns.CreditIsConserved` | crates/nysia-proto/src/credit.rs:25-36 | in every run, a stream's allowance, what is in flight, unpainted, unacked and being acked add up to what it opened with, and so does the shared budget |
| `CreditRuns.DrainSends` | apps/desktop/src-tauri/src/channel/credit.rs:318-366 | whatever a stream has rendered and is owed is acked whole, however it is drained |
| `CreditRuns.FlushAcksAll` | apps/desktop/src-tauri/src/daemon/stream.rs:262-272 | a flush acks every stream that has rendered anything it was not acked for, and for all of it |
| `CreditRuns.DetachedForGood` | apps/desktop/src-tauri/src/daemon/stream.rs:439-514 | once the client has detached, whatever still arrives is dropped and the ledger untouched, in every run; once the daemon has, nothing is ever sent on the stream again |
| `CreditRuns.FullAckRestores` | crates/nysia-proto/src/frame.rs:241-245 | once all is acked the allowance is whole; a daemon that charged for headers would be short one header a frame for ever, and could send only so many frames |
| `CreditRuns.RefusedExactly` | apps/desktop/src-tauri/src/channel/credit.rs:242-262 | a frame is refused exactly when it is more than the shared budget or than what the books of its stream leave; the first frame of a read behind the gate of a stream that is alone is not |
| `CreditReads.DeliveredExactly` | apps/desktop/src-tauri/src/daemon/stream.rs:366-385 | frames are delivered one after another exactly when the ledger has, before the first, what they cost together and what each stream's cost it |
| `CreditReads.OneStreamExactly` | apps/desktop/src-tauri/src/daemon/stream.rs:366-385 | with one stream that is one comparison with what it may still receive |
| `CreditReads.ReadDropsExactly` | apps/desktop/src-tauri/src/daemon/stream.rs:304-385 | a read behind an open gate drops a stream that is alone exactly when the frames it completes hold more than is left, which a read that starts at a frame's start never does |
| `CreditReads.OneStreamIsDropped` | apps/desktop/src-tauri/src/daemon/stream.rs:304-385 | the run, one stream, the defaults, every read behind an open gate, whose last read drops the connection |
| `CreditGuards.GuardedNeverRefused` | crates/nysia-core/src/rpc/stream.rs:267-301 | if output never exceeds the allowance it is charged to, nothing else has a payload and a stream is opened only when the shared budget covers it, nothing is refused in any run, however it is read |
| `CreditGuards.ExtraIsNeverReturned` | apps/desktop/src-tauri/src/daemon/stream.rs:598-610 | what was charged and was not output comes off the stream and off the shared budget for good, and is bounded by what the stream opened with |
| `CreditGuards.ExtrasStarveTheBudget` | apps/desktop/src-tauri/src/daemon/stream.rs:598-610 | of all open streams together it comes off the shared budget |
| `CreditRuns.OvershootIsFatal` | crates/nysia-core/src/rpc/stream.rs:267-301 | a daemon that has overshot what is being acked loses the connection when what is in flight is delivered |
| `CreditStalls.FloodDropsTheConnection` | crates/nysia-core/src/rpc/stream.rs:267-301 | the run, under the defaults and with nothing misbehaving, that ends in a refused frame |
| `CreditStalls.StreamSticksExactly` | crates/nysia-proto/src/credit.rs:99-115 | batching alone can strand a stream of a coherent window exactly when it opens with nothing or with less than a batch |
| `CreditStalls.CoherentAndStuck` | crates/nysia-proto/src/credit.rs:99-115 | two coherent windows that strand a stream, and that the default does not |
| `CreditStalls.TotalSticksExactly` | crates/nysia-proto/src/credit.rs:69-97 | batching alone can strand the shared budget of n streams exactly when n times one less than a batch is all of it |
| `CreditStalls.TenAreSafeElevenAreNot` | crates/nysia-proto/src/credit.rs:69-97 | under the defaults ten streams never strand the budget and eleven can |
| `CreditStalls.FlushFrees` | apps/desktop/src-tauri/src/daemon/stream.rs:262-272 | from such a state one idle flush gives the whole budget back and its ack the whole allowance |
| `CreditStuck.StreamStaysStuck` | crates/nysia-proto/src/credit.rs:99-115 | without a flush a stranded stream is never sent another byte, whatever else goes on |
| `CreditStuck.TotalStaysStuck` | crates/nysia-proto/src/credit.rs:69-97 | without a flush a stranded budget is never given back, and the reader stays blocked |
| `ReplayRing.Ring.Push` | crates/nysia-core/src/vt/replay.rs:62-125 | the ring holds the end of what was written, all of it while it fits, cut to its capacity and to a newline near enough when it does not |
| `Pump.Pump.FeedState` | crates/nysia-core/src/rpc/session.rs:1455-1470 | the ring has a chunk before the coalesced buffer does |
| `Pump.Pump.Extend` | crates/nysia-core/src/rpc/session.rs:1470-1474 | then the buffer has it, and every sink stays in step |
| `Pump.Pump.Does` | crates/nysia-core/src/rpc/session.rs:1455-1474 | what each step of the pump's thread prints, holds and writes; no sink that is open goes, and no queue loses anything |
| `Pump.Pump.Attach` | crates/nysia-core/src/rpc/session.rs:711-759 | the grant is the first thing sent and the boundary the last, once; the replay stops short, and grant or boundary is lost, only when the client has gone, the queue is full or, for the replay, the allowance is spent. Whatever the pump does between the steps, what is replayed is what the ring held when it was read, and the sink joins where the buffer starts when it is pushed; with nothing between, at a seam exactly when nothing was pending. No open sink that was watching is lost |
| `Pump.Pump.Replay` | crates/nysia-core/src/rpc/session.rs:711-759 | the wire half alone: grant, replay and boundary as `Greeted` has them, and nothing of the pump touched |
| `Pump.Pump.TheEnd` | crates/nysia-core/src/vt/state.rs:215-222 | what the ring holds is the end of what had been printed, and stays so |
| `Pump.Pump.SeamExactly` | crates/nysia-core/src/rpc/session.rs:711-759 | a sink that took its whole replay has every byte once exactly when it joined where the session had got to at the reading of the ring; what it repeats when it joined before that, and what it never has when after |
| `PumpSeams.JoinsLate` | crates/nysia-core/src/rpc/session.rs:711-759 | the pump flushes between the replay and the join, and what it flushed is never sent |
| `PumpSeams.JoinsEarly` | crates/nysia-core/src/rpc/session.rs:711-759 | the ring is read before the buffer has what it has, and that is sent twice |
| `Pump.Pump.FlushAll` | crates/nysia-core/src/rpc/session.rs:1536-1586 | closed sinks go; every other has had the whole buffer or can take no more; what is left is what the slowest has not had |
| `StreamIds.StreamConnection.Attach` | crates/nysia-core/src/rpc/stream.rs:495-512 | an id nobody has had, or none at the ceiling and nothing changed; an id is assigned exactly when it was handed out |
| `StreamIds.StreamConnection.Detach` | crates/nysia-core/src/rpc/stream.rs:537-549 | the id is retired and stays handed out |
| `StreamIds.StreamConnection.ApplyCredit` | crates/nysia-core/src/rpc/stream.rs:572-634 | a credit frame is routed, discarded or fatal exactly as its id is live, retired or was never handed out |
| `MuxSafety.NothingIsMisrouted` | crates/nysia-proto/src/stream.rs:78-116 | in every run the table names for an id the session it was minted for, every frame handed over was sent under its id, and no credit frame costs the connection |
| `MuxSafety.StepOrderly` | apps/desktop/src-tauri/src/daemon/stream.rs:410-595 | when attaches are answered one at a time, every step but the deadline keeps the client at most one id behind, so the router never has to drop the connection |
| `MuxSafety.SerialAttachesLoseNothing` | crates/nysia-proto/src/stream.rs:78-116 | then only the deadline drops the connection, what is handed over is a beginning of what was sent, and for a pane not detached the rest is all still on the way |
| `MuxVerdicts.DropsExactly` | apps/desktop/src-tauri/src/daemon/stream.rs:439-514 | in every run, when exactly the next frame drops the connection |
| `MuxVerdicts.ThrownExactly` | apps/desktop/src-tauri/src/daemon/stream.rs:439-514 | in every run, a frame is thrown away exactly when its id is detached, or unrecorded although a later one is recorded |
| `MuxVerdicts.InOrderKeepsLiveFrames` | apps/desktop/src-tauri/src/daemon/stream.rs:439-514 | with answers recorded in order, only a detached pane loses frames |
| `MuxVerdicts.DoomedExactly` | apps/desktop/src-tauri/src/daemon/stream.rs:524-563 | in every run, what is held is held for good exactly when its id is detached |
| `MuxVerdicts.CarefulNeverDooms` | apps/desktop/src-tauri/src/state.rs:960-975 | if no pane is detached while frames are held for it, what is held is always released by its own answer |
| `MuxVerdicts.DetachIsTold` | apps/desktop/src-tauri/src/state.rs:960-975 | in every run, a detached pane is one the reader still has to be told of, or no longer has open, and one the daemon still has to be told of, or no longer sends to; once both know, nothing can be sent under its id and what still arrives is thrown away |
| `MuxVerdicts.TellingCloses` | apps/desktop/src-tauri/src/daemon/stream.rs:203-218 | what waits to be told can be told, and telling it closes the pane at that side |
| `MuxVerdicts.ReportOpens` | apps/desktop/src-tauri/src/daemon/stream.rs:219-231 | a pane that has reported rendering is open from then on, and its frames are handed over, detached or not, until the reader is told |
| `MuxVerdicts.CreditExactly` | crates/nysia-core/src/rpc/stream.rs:572-634 | in every run, a credit frame is routed, discarded or fatal exactly as its id is live, retired or was never handed out |
| `MuxVerdicts.BogusExactly` | crates/nysia-proto/src/stream.rs:78-116 | a frame under an id never handed out drops the connection, unless it is the very next id and nothing is held |
| `MuxVerdicts.BogusIsDelivered` | apps/desktop/src-tauri/src/daemon/stream.rs:439-514 | in which case the session that gets the id has that frame first |
| `MuxOrder.NeverOutOfOrder` | crates/nysia-proto/src/stream.rs:78-116 | in every run, whatever is lost, what is handed over under an id was sent under it, each frame once and in order |
| `MuxOrder.CreditInOrder` | crates/nysia-proto/src/stream.rs:78-116 | in every run the daemon meets each credit frame once, in the order the panes reported, and none is lost on the way |
| `MuxGates.OnlyItsOwnBoundary` | crates/nysia-proto/src/stream.rs:40-76 | in every run a gate, which is one stream id's, is open only when the daemon has sent a boundary under that id |
| `MuxGates.OtherGatesStay` | crates/nysia-proto/src/stream.rs:40-76 | a step opens a gate only with that gate's own boundary, just routed or held until then |
| `MuxGates.NothingReplayedAfterTheBoundary` | crates/nysia-proto/src/stream.rs:40-76 | in every run, whatever is lost, nothing a pane is handed after its boundary is from the replay |
| `MuxGates.GateWaitsForTheReplay` | crates/nysia-proto/src/stream.rs:40-76 | when attaches are answered one at a time, a gate that is open has had its whole replay first |
| `PaneReplay.Watch` | apps/web/src/transport/terminals.ts:137-182 | on any such frames, with the pane shown, hidden, closed or parsing in any order in between, nothing a replayed byte provokes is let out unless the deadline opened the gate |
| `MuxExamples.TwoAttachesDropTheConnection` | apps/desktop/src-tauri/src/daemon/stream.rs:439-514 | two attaches in flight, and the connection is dropped |
| `MuxExamples.TwoAttachesLoseAFrame` | apps/desktop/src-tauri/src/daemon/stream.rs:439-514 | two answers recorded out of order, and a live pane's first frame is thrown away |
| `MuxExamples.DoomedForEver` | apps/desktop/src-tauri/src/daemon/stream.rs:524-563 | frames held for an id already detached are never settled, so the reader never reads again |
| `MuxExamples.ClosedWhileHeld` | apps/desktop/src-tauri/src/state.rs:876-975 | the run that gets there with one attach and one detach |
| `MuxExamples.AckCrossesDetach` | crates/nysia-proto/src/stream.rs:78-116 | one credit frame for one pane: routed, and discarded when the detach overtakes it |
| `ReplayGate.Surface.Write` | apps/web/src/transport/surface/XtermSurface.ts:213-224 | output of a pane that is shown is the renderer's next chunk; of one that is hidden it is the last thing collected, or, when it does not fit, all that was collected goes and a reset is due; of one that is closed it is nothing. The gate and the books are kept |
| `ReplayGate.Surface.ReplayEnded` | apps/web/src/transport/surface/XtermSurface.ts:350-398 | the boundary opens the gate at once exactly when a renderer is there and has parsed everything |
| `ReplayGate.Surface.Parse` | apps/web/src/transport/surface/XtermSurface.ts:213-253 | unless the deadline forced the gate, nothing a replayed chunk provokes is let out; with the boundary seen and the queue empty the gate is open |
| `ReplayGate.Surface.Deadline` | apps/web/src/transport/surface/XtermSurface.ts:166-177 | the gate opens although no boundary came |
| `ReplayGate.Surface.Show` | apps/web/src/transport/surface/XtermSurface.ts:255-293 | the renderer is given exactly what was collected, in order, after the reset if one is due, and nothing stays collected; the seam between replay and live output stays where it was |
| `ReplayGate.Surface.Hide` | apps/web/src/transport/surface/XtermSurface.ts:295-316 | a boundary already seen takes effect, and what was queued is lost and never reported |
| `ReplayGate.Surface.Dispose` | apps/web/src/transport/surface/XtermSurface.ts:407-421 | nothing is left armed |
| `Porcelain.Parse` | crates/nysia-core/src/worktree.rs:574-616 | the loop reads exactly what the entries mean, errors included |
| `Porcelain.ParsePrint` | crates/nysia-core/src/worktree.rs:574-616 | any list of well-formed records, printed and parsed, comes back in order with the first one main |
| `Porcelain.OnABranch` | crates/nysia-core/src/worktree.rs:645-733 | what a printed record with a commit and a branch comes back as: the branch by its short name, unborn exactly when the commit is all zeros, with the reasons it is prunable or locked as they were printed |
| `Porcelain.OffABranch` | crates/nysia-core/src/worktree.rs:645-733 | what the others come back as: detached at its commit, bare, and the two that are refused, with their errors |
| `Porcelain.BareExactly` | crates/nysia-core/src/worktree.rs:693-733 | a printed record is bare exactly when it says so, whatever else it says and in whatever order |
| `Porcelain.OrphanRefused` | crates/nysia-core/src/worktree.rs:574-616 | an attribute before any record is refused by its key |
| `Porcelain.ParseUnclosed` | crates/nysia-core/src/worktree.rs:574-616 | also without the empty entry that closes the last record |
| `Porcelain.ParseCutShort` | crates/nysia-core/src/worktree.rs:574-616 | also cut off before the very last terminator |
| `Porcelain.ParseCounts` | crates/nysia-core/src/worktree.rs:574-616 | on every input that parses there are as many worktrees as entries that open one, and only the first is main |
| `Porcelain.UnknownUnread` | crates/nysia-core/src/worktree.rs:574-733 | a stream with attributes this build does not know is read as the same worktrees, or the same error, as without them |
| `Porcelain.ShortBranchInjective` | crates/nysia-core/src/worktree.rs:739-741 | short names are distinct for local branches, and when exactly one is mistaken for a ref outside them |
| `Slug.MakeSlug` | crates/nysia-core/src/worktree.rs:536-563 | the loop and its early stop compute the slug the lemmas are about |
| `Slug.SlugShape` | crates/nysia-core/src/worktree.rs:536-563 | every slug is one visible component of kept characters, trimmed, and at most 60 bytes, or 67 for a reserved name |
| `Slug.DeviceNames` | crates/nysia-core/src/worktree.rs:219-223 | the 22 reserved names, one by one, and no other is one |
| `Slug.LowerStem` | crates/nysia-core/src/worktree.rs:536-563 | a name is reserved by what comes before its first dot, whatever the case of its letters |
| `Slug.KeptAsItIs` | crates/nysia-core/src/worktree.rs:536-563 | a branch of kept characters, trimmed and short, is its own slug, with `-branch` behind a reserved one |
| `Slug.RunIsOneDash` | crates/nysia-core/src/worktree.rs:536-563 | a run of other characters, however long, becomes one dash |
| `Slug.StillReserved` | crates/nysia-core/src/worktree.rs:536-563 | a slug is still a reserved name exactly when it was made from one with an extension |
| `Slug.NulTxt` | crates/nysia-core/src/worktree.rs:536-563 | the shortest example |
| `Slug.SlashAndDashCollide` | crates/nysia-core/src/worktree.rs:190-197 | a slash and a dash give two branches one slug |
| `Slug.FixedExactly` | crates/nysia-core/src/worktree.rs:536-563 | when exactly a slug is its own slug |
| `Worktrees.MarkPrimary` | crates/nysia-core/src/worktree.rs:166-186 | marks one worktree exactly when some worktree holds the folder; every other that does is around the marked one, and nothing else changes |
| `Worktrees.CandidatesDiffer` | crates/nysia-core/src/worktree.rs:506-528 | the nine names are distinct |
| `Worktrees.FreeFrom` | crates/nysia-core/src/worktree.rs:506-528 | what is found is a candidate that does not exist, and none is found exactly when all exist |
| `Worktrees.Repository.FreeDirectory` | crates/nysia-core/src/worktree.rs:506-528 | the search loop finds the first free candidate |
| `Worktrees.Repository.Exists` | crates/nysia-core/src/worktree.rs:442-452 | a branch exists exactly when its own ref does, though git lists what is below it as well |
| `Worktrees.Repository.Conceal` | crates/nysia-core/src/worktree.rs:490-503 | what hiding Nysia's directory puts on disk, and that it changes nothing else |
| `Worktrees.Repository.Ensure` | crates/nysia-core/src/worktree.rs:338-415 | the method leaves the repository and gives the outcome that the lemmas are about |
| `WorktreeRuns.NeverASecond` | crates/nysia-core/src/worktree.rs:338-415 | a branch with a worktree keeps it and gets no other; one without gets at most one, on its own ref |
| `WorktreeRuns.WhatIsLeftBehind` | crates/nysia-core/src/worktree.rs:360-383 | every refusal leaves the repository and the disk as they were; a failed add leaves only Nysia's own directory |
| `WorktreeRuns.WhereItIsMade` | crates/nysia-core/src/worktree.rs:338-528 | a made worktree is fresh, directly under the base, at the first free of nine distinct names; none is found only when all exist |
| `WorktreeRuns.MadeUnderTheMainOne` | crates/nysia-core/src/worktree.rs:454-471 | a made worktree is `.nysia/worktrees` and its name under the main worktree when that is on disk, whichever checkout was looked at, and under that checkout when it is not; its name is the slug, or the slug with a number from 2 to 9 |
| `WorktreeRuns.LookedAtFromAnywhere` | crates/nysia-core/src/worktree.rs:454-471 | with the main worktree on disk, the answer and what is made do not depend on the checkout looked at |
| `WorktreeRuns.OutcomeExactly` | crates/nysia-core/src/worktree.rs:338-400 | which answer a call gives, said of the repository, the name and the disk, up to what git itself may refuse |
| `WorktreeRuns.CanBeGivenExactly` | crates/nysia-core/src/worktree.rs:338-528 | a branch can be given a worktree exactly when it is there or no ref is in its way, and the first free name is not still registered |
| `WorktreeRuns.BranchBelowBlocks` | crates/nysia-core/src/worktree.rs:303-306 | a branch above one that is there never gets a worktree, though git lists refs for its name |
| `WorktreeRuns.MissingDirectoryBlocks` | crates/nysia-core/src/worktree.rs:506-528 | a deleted directory blocks the other branches of its slug |
| `WorktreeRuns.AdoptedFromThenOn` | crates/nysia-core/src/worktree.rs:338-415 | asking again, whatever was asked for in between, adopts the same worktree and changes nothing |
| `WorktreeRuns.NeverOneDirectory` | crates/nysia-core/src/worktree.rs:190-197 | two branches are never given one directory, even when their slugs collide |
| `WorktreeRuns.RunKeeps` | crates/nysia-core/src/worktree.rs:338-415 | no order of calls and of what git allows anybody gives a branch two worktrees or two worktrees one directory |
| `WorktreeRuns.AdoptedExactly` | crates/nysia-core/src/worktree.rs:739-741 | an adopted worktree is on the branch asked for exactly when its ref is a local branch |
| `WorktreeRuns.AdoptsTheWrongOne` | crates/nysia-core/src/worktree.rs:739-741 | the wrong adoption, when it is not |
| `WorktreeRuns.ReadingIsLooking` | crates/nysia-core/src/worktree.rs:366-376 | finding a branch and its directory in what was parsed is finding them in what git has registered |
| `LabelConfig.ToChangedFiles` | scripts/labeler/upstream.ts:133-194 | the loop computes `ChangedFiles`, errors included; `LabelMeaning.ChangedFilesSay` says what that asks |
| `LabelConfig.TakeOption` | scripts/labeler/upstream.ts:228-289 | the step computes `TakePair`, searching for the first `any` block; `LabelMeaning.LabelsMean` says what its place means |
| `LabelConfig.CompileRules` | scripts/labeler/upstream.ts:228-289 | the loop over a label's entries computes `TakeEntries`, whose meaning is `LabelMeaning.LabelsMean` |
| `LabelConfig.GetLabelConfigMap` | scripts/labeler/upstream.ts:228-289 | the whole loop computes `Compiled`, first error included, whose meaning is `LabelMeaning.LabelsMean` |
| `LabelAccepted.AcceptedExactly` | scripts/labeler/upstream.ts:133-289 | a config is accepted exactly when it is well formed all the way down, said of the YAML |
| `LabelAccepted.BranchesAreRefused` | scripts/labeler/upstream.ts:195-227 | a match entry or an option that asks about branches is refused for that, whatever else it has |
| `LabelAccepted.OptionSays` | scripts/labeler/upstream.ts:228-401 | what an accepted `any` or `all` asks of the files, said of the YAML |
| `LabelErrors.FirstErrorWins` | scripts/labeler/upstream.ts:228-289 | a config is refused for the first option in it that is wrong, in the order it is written; only an entry that is no object is seen before its label's options are |
| `LabelErrors.OptionRefusedFor` | scripts/labeler/upstream.ts:228-289 | what an unknown option, and one about branches, is refused for |
| `LabelErrors.NoListRefusedFor` | scripts/labeler/upstream.ts:133-167 | what a `changed-files` that is no list is refused for, which depends on whether JavaScript finds a length on it |
| `LabelErrors.FilesRefusedFor` | scripts/labeler/upstream.ts:168-193 | a list is refused for the first thing in it that is no mapping, or has other keys, which are named |
| `LabelMatching.AnyGlobMatchesAnyFile` | scripts/labeler/upstream.ts:293-303 | some glob finds a file, the first it matches having a name |
| `LabelMatching.AnyGlobMatchesAllFiles` | scripts/labeler/upstream.ts:315-323 | some glob finds no file that it does not match |
| `LabelMatching.AllGlobsMatchAnyFile` | scripts/labeler/upstream.ts:305-313 | some file is matched by every glob |
| `LabelMatching.AllGlobsMatchAllFiles` | scripts/labeler/upstream.ts:325-332 | every file is matched by every glob |
| `LabelMatching.PlainMeaning` | scripts/labeler/upstream.ts:293-332 | without an empty file name the two keys that search for a file mean what they say |
| `LabelMatching.EmptyNames` | scripts/labeler/upstream.ts:293-332 | with one they need not |
| `LabelMatching.CheckAny` | scripts/labeler/upstream.ts:365-373 | some glob key of some condition holds |
| `LabelMatching.CheckAll` | scripts/labeler/upstream.ts:375-386 | there is a condition and a file, and every glob key of every condition holds |
| `LabelMatching.CheckMatchConfigs` | scripts/labeler/upstream.ts:388-401 | every block holds |
| `LabelMatching.LabelsFor` | scripts/labeler/upstream.ts:410-416 | the labels whose blocks all hold, sorted |
| `LabelMatching.SortedUnique` | scripts/labeler/upstream.ts:410-416 | a sorted list is settled by what is in it, so comparing lists compares sets |
| `LabelMatching.AtMostIs` | scripts/labeler/upstream.ts:410-416 | the order is the one of strings: a beginning comes first, and otherwise the first place they differ decides |
| `LabelMeaning.LabelsMean` | scripts/labeler/upstream.ts:228-416 | the labels given are exactly those whose rules as written hold: explicit blocks are demands, and the first of them that is not an `all` is one choice with every condition on its own |
| `LabelMeaning.ChangedFilesSay` | scripts/labeler/upstream.ts:133-386 | from the YAML to the answer, key by key as the keys read: some key of some mapping under `any` or alone, every key of every mapping and a file under `all`; sharing a mapping joins nothing |
| `LabelMeaning.BareAreOred` | scripts/labeler/upstream.ts:228-289 | conditions that all stand on their own are a choice |
| `LabelMeaning.OrderDecides` | scripts/labeler/upstream.ts:228-289 | a condition and an `any` are two demands in one order and one choice in the other |
| `LabelMonotone.StricterGivesFewer` | scripts/labeler/upstream.ts:228-416 | a config with fewer globs any of which will do, or more which all must, is accepted alike and gives no label the other does not |
| `LabelMonotone.OneGlobLessLabels` | scripts/labeler/liveness.ts:48-59 | taking out one glob never adds a label under an `any` key and never removes one under an `all` key |
| `YamlPaths.NothingRemoved` | scripts/labeler/liveness.ts:48-59 | taking out what is not there leaves the tree as it was |
| `YamlPaths.RemovedFromList` | scripts/labeler/liveness.ts:48-59 | the list that held the node reads as what was before it and what was behind it, and is one shorter |
| `YamlPaths.RemovedKey` | scripts/labeler/liveness.ts:48-59 | of a mapping that says no key twice, the key is gone |
| `YamlPaths.OtherKeysStay` | scripts/labeler/liveness.ts:48-59 | and every other key reads as it did |
| `YamlPaths.RemovedNowhereElse` | scripts/labeler/liveness.ts:48-59 | every path that does not go through what held the node reads as it did |
| `Liveness.FindComponents` | scripts/labeler/liveness.ts:81-138 | the nested loops push every piece once, with the tree that is left without it |
| `Liveness.PathsExactly` | scripts/labeler/liveness.ts:81-138 | the pieces are exactly the nodes of the six kinds a config has |
| `PieceOrder.InOrderAndOnce` | scripts/labeler/liveness.ts:81-138 | they are found in the order the config has them, what is around a piece before it, and each once |
| `DeadPieces.RowTells` | scripts/labeler/liveness.ts:141-154 | with one label's rules changed, a sample's joined labels are the same only if the labels are, whatever the names have in them |
| `DeadPieces.JoinInjective` | scripts/labeler/liveness.ts:141-154 | as many parts as there are samples can be read back from their join |
| `DeadPieces.OutcomeExactly` | scripts/labeler/liveness.ts:141-154 | two outcomes are equal exactly when both configs are refused or both give every sample the same labels |
| `DeadPieces.DeadExactly` | scripts/labeler/liveness.ts:162-167 | a piece is reported dead exactly when it can be taken out and no sample's labels are any different |
| `DeadPieces.NamelessHides` | scripts/labeler/liveness.ts:141-154 | a label with an empty name hides every difference |
| `DeadPieces.BarHides` | scripts/labeler/liveness.ts:141-154 | two configs that give a label called `|` to different samples have one outcome |
| `DeadPieces.NameOfRefusalHides` | scripts/labeler/liveness.ts:141-154 | a label can be taken for a refusal |
| `ProjectIds.Digest` | crates/nysia-proto/src/project.rs:95-102 | the loop computes the digest the lemmas are about |
| `KnownDigests.Known` | crates/nysia-proto/src/project.rs:79-102 | the published digests of the empty string and of `a` |
| `ProjectIds.MixInjective` | crates/nysia-proto/src/project.rs:95-102 | one step is injective in the state and in the byte |
| `ProjectIds.SuffixesCancel` | crates/nysia-proto/src/project.rs:95-102 | equal endings neither make nor hide a collision |
| `ProjectIds.OneByteTells` | crates/nysia-proto/src/project.rs:95-102 | strings of one length that differ in one byte never collide |
| `ProjectIds.PrintsExactly` | crates/nysia-proto/src/project.rs:188-222 | printing is one to one, always accepted, and whatever is accepted is some digest's printing |
| `ProjectIds.IdsExactly` | crates/nysia-proto/src/project.rs:188-222 | every id made can be read; two are equal exactly when the digests are, so never for paths one character apart |
| `PathSpellings.IdShape` | crates/nysia-proto/src/project.rs:188-222 | an id is the prefix and 32 lower case hex digits, and exactly such strings are accepted |
| `PathSpellings.HexAt` | crates/nysia-proto/src/project.rs:188-206 | each of the 32 digits is the usual one for its four bits, the most significant first |
| `PathSpellings.UnixExactly` | crates/nysia-proto/src/project.rs:121-135 | on Unix a path is its own spelling but for separators at its end |
| `PathSpellings.WindowsExactly` | crates/nysia-proto/src/project.rs:121-135 | on Windows, of what is left once the prefix is stripped, character by character: separators turned, ASCII letters in lower case, separators at the end dropped and nothing else |
| `PathSpellings.StripExactly` | crates/nysia-proto/src/project.rs:114-135 | which prefix is stripped, and what of a share is left |
| `PathSpellings.CaseExactly` | crates/nysia-proto/src/project.rs:121-135 | two Windows paths that differ only in the case of their letters have one spelling exactly when both or neither are verbatim shares |
| `ProjectIds.NormalisedTwice` | crates/nysia-proto/src/project.rs:121-135 | normalising again changes nothing, except exactly when a verbatim prefix is left once the first is stripped |
| `ProjectIds.NotIdempotent` | crates/nysia-proto/src/project.rs:121-135 | a path for which it does |
| `ProjectIds.TrailingSeparator` | crates/nysia-proto/src/project.rs:114-135 | a trailing separator changes nothing, except exactly when it completes the prefix that is stripped |
| `Identity.PaneExactly` | crates/nysia-proto/src/identity.rs:84-123 | composing and reading a pane key undo each other, and what is read is printed as it was |
| `Identity.RefusedSegments` | crates/nysia-proto/src/identity.rs:55-67 | what may not be in a segment, and that neither half may be empty |
| `Identity.AcceptedSegments` | crates/nysia-proto/src/identity.rs:55-67 | printable ASCII without the two separators is a segment |
| `Identity.PaneShape` | crates/nysia-proto/src/identity.rs:84-123 | a string is refused for its shape exactly when the separator is not in it |
| `Identity.IncarnationRoundTrip` | crates/nysia-proto/src/identity.rs:198-248 | an incarnation is read back as its pane and number, and no other pair spells it |
| `Identity.AcceptedExactly` | crates/nysia-proto/src/identity.rs:227-248 | a string is accepted exactly when it is a pane, one separator and digits that fit, and is printed again with the leading zeros dropped |
| `Identity.UsualDecimal` | crates/nysia-proto/src/identity.rs:198-248 | a number is printed with the usual digits |
| `Identity.RefusedFor` | crates/nysia-proto/src/identity.rs:227-248 | which error an incarnation is refused with |
| `Identity.ExtraSeparators` | crates/nysia-proto/src/identity.rs:227-248 | a second separator of either kind is refused wherever it is |

## Left out

- Mux: the reader's table and router are values rather than objects updated in place, and the window's refusal of an overshooting frame is left to `CreditRuns`; deadlines are an event that may happen whenever something is held.
- Pump: a client that goes away in the middle of one flush, and the atomics that let another thread see a sink's allowance; the coalescing delay; clearing the ring; the exit frame of a session that has ended.
- Credit: a second window adopted in the middle of a run (`CreditLedger.Adopt` is modelled, `CreditRuns` keeps one window); the web transport's own copy of the ledger; what is in a grant, which is JSON, so a sink is given the frame.
- CreditRuns: the daemon keeps no budget across streams, so there is none to model.
- ReplayGate.Surface.Write: takes it that no replayed output follows the boundary on one stream; `MuxGates.NothingReplayedAfterTheBoundary` shows it of every run and `PaneReplay.Watch` meets it.
- ReplayGate: the count of bytes dropped while a pane was hidden; it is read once and decides nothing.
- CreditReads: frames held for an attach that is not answered yet (`Mux` has those), and signals between reads other than the events of `CreditRuns`.
- Porcelain: bytes are spelled as characters, so lossy UTF-8 conversion is not modelled, nor is resolving a path (`canon` is given).
- Worktrees: git and the disk are what they are asked to do (check a name, list, list refs, add), never the programs; a timeout and every other way git can fail is one outcome, another process in the middle of one call is not modelled, and `worktree add` appends to the list.
- WorktreeRuns: moving or locking a worktree, and the flags with which git can be forced.
- LabelConfig: integer-like keys are enumerated in the order given; a config object with a `__proto__` key.
- LabelMatching: matching a glob is one uninterpreted predicate on a value and a file name, so a glob the library refuses to compile (one that is not text, or too long) is not modelled.
- Liveness: a piece is named by its path, not by the sentence that is printed for it; removal makes a new tree rather than changing a clone in place.
- ProjectIds: a path is its UTF-8 bytes spelled as characters; reading a path from the operating system is a parameter.
- Sockets, processes, timers, environment, serialisation, generated TypeScript, handshake, tasks, agents, receipts and the user interface.
- Session handles, session kinds, `last_component` and the counting in a refusal to register: one branch each.
