# Vivid protocol model

A Dafny model of the state machines and codecs of the Vivid wire protocol: what each keeps over
every run, what each codec loses, and where exactly a promise stops holding.

`dafny verify dfyconfig.toml` checks the whole project.

## Parts

| files | subject |
|---|---|
| Basics, Scalars | results, machine integers, big-endian bytes, UTF-8, bounded fixed-point scalars |
| OverlayTypes, OverlayModel | the overlay window machine as functions from state to state |
| OverlayInvariant, OverlayRevocation, OverlaySafety, OverlayRuns | its invariant, the re-entrant overflow cascade, every operation, every run |
| OverlayRouting, OverlayDelivery | where input goes, and what each run hands out of each queue |
| OverlayQueues, OverlayClosing, OverlayHover | what each step takes of the queues, whom a close takes down, where the hover is left |
| OverlayEdges, OverlayWitnesses | the exact conditions of more surprising corners, and short runs that reach them |
| OverlayWindows | the machine as one object whose methods update its fields in place |
| Semantics | semantic trees: the three checking loops, and what a tree is |
| Cbor, CborRoundTrip, CborPreserving, CborCodec | canonical CBOR (a subset of RFC 8949), the bijection, the byte-preserving map split, the buffer and cursor codecs |
| VectorTypes, VectorCodec, VectorRoundTrip, VectorRewrite, VectorScene, VectorCanvas | display lists over that CBOR: both round trips, validity, the one-pass checks |
| RasterDelta, RasterDeltaCodec | raster delta frames, built and parsed |
| NalFraming, NalFramingCodec | H.264 framing: Annex B of ITU-T H.264, length prefixes, avcC records |
| Observation, ObservationQueue | bounded coalescing delivery with gap reports |
| Lease, LeaseMachine | delegated leases with exact replay and resume |
| Input, InputGate, Grant, InputGrant | the final input gate, and the presenter's renewal schedule around it |
| TokenBucket | shaping with exact waiting times |
| Scenes, SceneStore | retained scenes with atomic transactions |
| FitGeometry | fitting and clipping in signed 32.32 |

Each imperative part comes twice: functions over a plain state, about which the lemmas are proved for
all inputs and all runs, and an object with the source's own fields and loops whose methods are
proved to move that state in exactly the same way.

## Conventions

- `usize` is 64 bits wide. Checked, saturating and narrowing arithmetic is written out.
- Window coordinates are raw Q32.32 integers. They are bounded by 10^6 * 2^32, below 2^53, so the
  source's `f64` sums decide the same comparisons and results outside the bound are refused alike.
- Class masks are the sets of their one bits. Digests, nonces and payloads are byte strings; the
  HELLO hash is an arbitrary function, and Zstandard is a pair of arbitrary functions.
- Hit tests are arbitrary total functions of a window and a window-local point.
- An error type that carries only message text is one constructor; error kinds that a caller can
  tell apart are kept apart.
- A session is a presenter and a session number, and an overlay window's identity is its map key.

## Where the code and its documentation part

The model follows the code, and each point below is a lemma with the exact condition.

- A focus request or restoration can leave focus on a removed window
  (`OverlayEdges.RequestStrandsExactly`, `OverlayEdges.RestoreStrandsExactly`), and a revocation, a
  hover change or a pointer input can leave the hover on one (`OverlayEdges.HoverStrandedExactly`,
  `OverlayHover.SetHoverStrandsExactly`, `OverlayHover.PointerStrandsExactly`).
- A refused creation can leave its window in place (`OverlayEdges.CreateFailsAfterInserting`), a
  refused update can leave its options written (`OverlayEdges.UpdateFailsAfterWriting`), and a drag can
  restore a size below a raised minimum (`OverlayEdges.GestureMinimumExactly`).
- A modal does not always swallow a pointer that misses it: the leave event that the pointer sends can
  revoke the modal's owner first (`OverlayHover.MissedPointer`).
- OverlayWitnesses reaches a stranded focus, a stranded hover, both refused writes, the undercut minimum
  and the escaped pointer by runs from the empty state.
- The raster delta builder accepts copies the parser refuses (`RasterDelta.BuiltParses`).
- A length-prefixed access unit whose first length reads as a start code passes through unconverted
  (`NalFraming.NormalizesExactly`).
- A gap report names its own sequence number as first lost, never the number of anything dropped
  (`Observation.NumbersConsecutive`), and a coalesced payload keeps its entry's class
  (`Observation.CoalescingKeepsClass`).
- Running out of revisions refuses lease transitions and scene cleanups that have already happened
  (`Lease.FailureTracesExactly`, `Scenes.FailureTracesExactly`).
- A presenter's revocation can silently leave its grant standing (`Grant.RevocationCanFail`), and a
  poll that renews nothing can spend a sequence number (`Grant.PollWastesExactly`).
- Waiting exactly as long as told can overflow the token counter (`TokenBuckets.FullWaitSuffices`).
- A fit can yield no quad for a legal picture and destination (`FitGeometry.FitExactly`).
- Clipping against a rectangle whose far edge overflows 64 bits yields nothing, even where the two
  overlap (`FitGeometry.IntersectExactly`).

## Model

| member | source | states |
|---|---|---|
| `OverlayModel.Emit` | src/overlay.rs:900-950 | The queues left after an emission are among those before it; the measure falls at every re-entrant call, so the recursion through revocation and focus restoration ends |
| `OverlayModel.Revoke` | src/overlay.rs:874-899 | Revocation takes the owner's queue away and adds none, which is what the re-entrant recursion descends on |
| `OverlayRevocation.EmitSafe` | src/overlay.rs:900-950 | From a good state an emission leaves a good state that is the old one with whole owners revoked without trace, exactly those reported as overflowed, and hover and swallowed input untouched, if and only if the event is valid or its addressee is already served or reported |
| `OverlayRevocation.EmitKeeps` | src/overlay.rs:900-950 | The invariant survives an emission if and only if the event is valid, its addressee is already served or reported, or there is room to count one more owner |
| `OverlayRevocation.RevokeSafe` | src/overlay.rs:874-899 | Public revocation removes the owner whole and is otherwise a cascade of further whole revocations |
| `OverlayRevocation.ChangeFocusSafe` | src/overlay.rs:821-833 | A focus change keeps the invariant through both farewell events and the greeting, whatever they overflow |
| `OverlayRevocation.RestoreSafe` | src/overlay.rs:834-844 | Restoring focus keeps the invariant and only ever revokes whole owners |
| `OverlayRevocation.RevokeFalls` | src/overlay.rs:834-899 | A revocation takes exactly the owners that fall, followed from the state before it: the owner, and while focus was held by the last one to fall, the owner of the next focus candidate if that owner has no room to be told |
| `OverlayRevocation.EmitRevokes` | src/overlay.rs:900-950 | An emission revokes nobody unless its event is invalid or overfills the queue it is meant for, and then exactly the owners that fall with the addressed one; every other of them has a queue that is already full |
| `OverlayRevocation.PushThins` | src/overlay.rs:917-949 | Adding an event to a queue thins the emitted history only by an immediately preceding event of the same kind, window and scene revision |
| `OverlayRevocation.FocusStrandedExactly` | src/overlay.rs:821-833 | Giving focus to a live window leaves focus on a live window if and only if the farewell does not revoke the very owner being focused: the previous holder shares the owner and its queue cannot take two more events |
| `OverlayEdges.RequestStrandsExactly` | src/overlay.rs:811-833 | A focus request ends with focus on a live window if and only if it is refused and focus was live before, or it is granted and does not move focus within one owner whose queue cannot take the two farewell events |
| `OverlayEdges.RestoreStrandsExactly` | src/overlay.rs:834-844 | Restoring focus ends with focus on a live window if and only if there is no candidate, or moving focus to it stays outside that same case |
| `OverlayWitnesses.FocusCanBeStranded` | src/overlay.rs:811-833 | After two creations, a focus request and 254 typed keys, asking for the second window leaves focus on a removed window; after 253 it does not |
| `OverlayEdges.HoverStrandedExactly` | src/overlay.rs:874-899 | A revocation, public or by overflow, leaves the hover on a live window if and only if it was on one and, told from the state before, the owner of that window does not fall |
| `OverlayHover.SetHoverStrandsExactly` | src/overlay.rs:1221-1253 | A hover change ends on a live window if and only if, told from the state before, there is no next window, or it is live and the region is the same, or it is live, its owner does not fall with the leave, and its queue has room for the entry behind the leave and any greeting the cascade ends in |
| `OverlayHover.RefreshStrandsExactly` | src/overlay.rs:1206-1219 | Re-evaluating the hover strands it under exactly that condition on the window under the pointer |
| `OverlayHover.EmitStrandsExactly` | src/overlay.rs:900-950 | An emission strands the hover if and only if it was stranded before, or the event bursts the queue it is meant for and the hovered owner falls with it |
| `OverlayHover.CloseStrandsExactly` | src/overlay.rs:845-873 | A close leaves the hover on a live window if and only if there was none, or it was on a window that the close removes, or it was on a live one whose owner does not fall |
| `OverlayHover.PointerStrandsExactly` | src/overlay.rs:1073-1180 | Any pointer input leaves the hover on a live window if and only if the state before says so, branch by branch: swallowed, captured, dismissing a popup, missing every window, moving over one, or pressing on one |
| `OverlayWitnesses.HoverChangeCanStrand` | src/overlay.rs:1073-1253 | Runs from the empty state: the pointer comes over a window of a crowded owner, and a refresh or the pointer input leaves the hover on a removed window |
| `OverlayQueues.RevokeQueues` | src/overlay.rs:834-950 | A queue that a revocation leaves has grown by one event exactly if the cascade ended by telling one of its windows that it has focus |
| `OverlayClosing.RestoreLosesExactly` | src/overlay.rs:821-844 | Restoring focus takes exactly the owners told from the state before: the holder without room for its farewell, and those that fall with a candidate without room for its greeting |
| `OverlayClosing.CloseLosesExactly` | src/overlay.rs:845-899 | A close takes exactly the owners told from the state before: with room for every farewell of the closing group, those that the restored focus takes; without, the owner, and those the passed-on or restored focus takes |
| `OverlayClosing.CloseClears` | src/overlay.rs:845-873 | With room for them, a close tells its owner one dismissal a window, one cancelled capture, one leave and two for lost focus where the group held them, and removes exactly the group; without, the owner falls |
| `OverlayWitnesses.HoverCanBeStranded` | src/overlay.rs:874-899 | After a creation and a hover refresh, revoking the owner leaves the hover on a removed window |
| `OverlayEdges.CreateFailsAfterInserting` | src/overlay.rs:554-579 | A creation that passes every check fails if and only if it would take focus under a parent that is not effectively visible, and then the window is already inserted |
| `OverlayWitnesses.CreateCanFailAfterInserting` | src/overlay.rs:554-579 | After creating a hidden window, creating a visible popup under it is refused and leaves the popup in place |
| `OverlayEdges.UpdateFailsAfterWriting` | src/overlay.rs:703-771 | An update that passes every check fails if and only if it shows a popup or modal whose parent is not effectively visible or that would stand behind a visible modal, and then its options and revision are already written |
| `OverlayWitnesses.UpdateCanFailAfterWriting` | src/overlay.rs:703-771 | After creating a hidden window and a hidden popup under it, showing the popup is refused and leaves its record visible |
| `OverlayWitnesses.ChildCanBlockShowing` | src/overlay.rs:703-771 | Showing a parentless popup is refused, and written all the same, because its own modal child comes to light in front of it |
| `OverlayEdges.GestureMinimumExactly` | src/overlay.rs:1269-1315 | A gesture respects the current minimum on an axis if and only if it resizes that axis or the captured rectangle already did |
| `OverlayWitnesses.GestureCanUndercut` | src/overlay.rs:1269-1315 | A window pressed for a drag, then given a larger minimum, then dragged is narrower than its minimum |
| `OverlayEdges.GestureAnchors` | src/overlay.rs:1269-1315 | A drag keeps the size and moves by the pointer; a resize keeps every edge it does not name in place; the result is a valid rectangle |
| `OverlayRuns.RunSafe` | src/overlay.rs:487-1317 | The whole invariant holds after every run of public operations with any arguments and any hit test |
| `OverlayRuns.ReachableStack` | src/overlay.rs:458-579 | In every reachable state the stack lists the live windows without duplicates, and each parent is live, of the same owner and strictly below its children |
| `OverlayRuns.ReachableWalks` | src/overlay.rs:778-804 | In every reachable state parents are acyclic and no number of steps finds an ancestor or hidden parent that the 256-step walks miss |
| `OverlayRuns.ReachableQueues` | src/overlay.rs:900-962 | In every reachable state each owner with a window has a queue, each queue holds only its owner's valid events within 256 entries and 128 KiB, and queued and overflowed owners are disjoint and at most 16 |
| `OverlayRuns.ReachableReferences` | src/overlay.rs:811-899 | In every reachable state the capture and the focus history name live windows, the history each at most once |
| `OverlayRuns.ReachableDelivery` | src/overlay.rs:900-962 | For every owner whose queue is open, events taken followed by events queued are the events emitted, thinned only by coalescing, so every event that cannot be replaced is there once and in order |
| `OverlayDelivery.LifeDelivered` | src/overlay.rs:874-962 | In every run, for every owner whose queue was not cut short, drained and closed queues included, the events returned to the host and those still waiting are the events the queue accepted, thinned only by coalescing |
| `OverlayDelivery.StepEnds` | src/overlay.rs:874-962 | An owner loses its queue only by a take of its own, a call that revokes it, or an overflow it is then reported for |
| `OverlaySafety.CloseSafe` | src/overlay.rs:845-873 | Closing removes the window and its descendants, and beyond them only whole revoked owners |
| `OverlaySafety.RemoveOneSafe` | src/overlay.rs:860-873 | Removing a childless window keeps the invariant through its farewell events |
| `OverlaySafety.RaiseGroupSafe` | src/overlay.rs:692-702 | Raising a subtree to the front keeps every parent below its children |
| `OverlaySafety.LowerGroupSafe` | src/overlay.rs:601-691 | Lowering a subtree to just above its parent keeps every parent below its children |
| `OverlaySafety.SetHoverSafe` | src/overlay.rs:1221-1253 | A hover transition keeps the invariant through the leave and enter events |
| `OverlaySafety.RequestFocusSafe` | src/overlay.rs:811-820 | Requesting focus keeps the invariant through raising, remembering and the focus change |
| `OverlayRuns.CreateSafe` | src/overlay.rs:508-579 | Creation keeps the invariant, including when it fails after inserting |
| `OverlayRuns.UpdateSafe` | src/overlay.rs:703-771 | An update keeps the invariant through hiding, capture cancellation and focus restoration |
| `OverlayRuns.ApplyActionSafe` | src/overlay.rs:601-691 | Every window action keeps the invariant |
| `OverlayRuns.TakeEventSafe` | src/overlay.rs:955-962 | Taking an event keeps the invariant and drops the queue of an owner with nothing left |
| `OverlayRuns.PointerInputSafe` | src/overlay.rs:1073-1180 | Pointer input keeps the invariant on every branch |
| `OverlayRuns.KeyboardSafe` | src/overlay.rs:1000-1031 | Keyboard input keeps the invariant on every branch |
| `OverlayRouting.FrontmostTakes` | src/overlay.rs:1181-1205 | A pointer goes to the frontmost eligible window under it with an opaque region, carrying that region; with no such window it goes nowhere |
| `OverlayRouting.ModalConfines` | src/overlay.rs:772-820 | While a modal is up, pointer targets, dismissible popups, restorable focus and granted focus requests all descend from it |
| `OverlayRouting.ModalSwallows` | src/overlay.rs:1000-1072 | While a modal is up, keys and scrolling without a taker below it are consumed and change nothing |
| `OverlayHover.MissedPointer` | src/overlay.rs:1073-1136 | A pointer input that misses every window is consumed if and only if a visible modal outlives the leave event it sends; then only the hover ends, and otherwise a press also lets go of focus |
| `OverlayWitnesses.ModalCanFailToSwallow` | src/overlay.rs:1073-1136 | A run from the empty state after which a modal is up and a pointer that misses every window passes through, because telling the modal of the leave revoked its owner |
| `OverlayRouting.ReleaseEndsCapture` | src/overlay.rs:1073-1180 | A button release ends the capture, whatever revocations it sets off |
| `OverlayRouting.OutsidePressSwallowed` | src/overlay.rs:1073-1130 | A press outside a popup dismisses it; repeats of that press and its release are swallowed, and the release ends the swallowing |
| `OverlayRouting.EscapeSwallowed` | src/overlay.rs:1000-1031 | An escape that dismissed a window is swallowed through repeats up to and including its release |
| `OverlayWindows.Windows.RevokeOwner` | src/overlay.rs:874-899 | The object keeps the invariant and moves, with its answer where it has one, exactly as the revocation step proved in OverlayRuns says |
| `OverlayWindows.Windows.RestoreFocus` | src/overlay.rs:834-844 | The object keeps the invariant and moves, with its answer where it has one, exactly as the focus restoration step proved in OverlayRuns says |
| `OverlayWindows.Windows.ChangeFocus` | src/overlay.rs:821-833 | The object keeps the invariant and moves, with its answer where it has one, exactly as the focus change step proved in OverlayRuns says |
| `OverlayWindows.Windows.Emit` | src/overlay.rs:900-950 | The object moves exactly as the emission step, and keeps the invariant unless an invalid event would report a seventeenth owner |
| `OverlayWindows.Windows.RequestFocus` | src/overlay.rs:811-820 | The object keeps the invariant and moves, with its answer where it has one, exactly as the focus request step proved in OverlayRuns says |
| `OverlayWindows.Windows.RaiseGroup` | src/overlay.rs:692-702 | The object keeps the invariant and moves, with its answer where it has one, exactly as the raise step proved in OverlayRuns says |
| `OverlayWindows.Windows.CancelCapture` | src/overlay.rs:993-999 | The object keeps the invariant and moves, with its answer where it has one, exactly as the capture cancellation step proved in OverlayRuns says |
| `OverlayWindows.Windows.SetHover` | src/overlay.rs:1221-1253 | The object keeps the invariant and moves, with its answer where it has one, exactly as the hover change step proved in OverlayRuns says |
| `OverlayWindows.Windows.Create` | src/overlay.rs:508-579 | The object keeps the invariant and moves, with its answer where it has one, exactly as the creation step proved in OverlayRuns says |
| `OverlayWindows.Windows.PublishScene` | src/overlay.rs:581-600 | The object keeps the invariant and moves, with its answer where it has one, exactly as the scene publication step proved in OverlayRuns says |
| `OverlayWindows.Windows.RemoveOne` | src/overlay.rs:860-873 | The object keeps the invariant and moves, with its answer where it has one, exactly as the single removal step proved in OverlayRuns says |
| `OverlayWindows.Windows.Close` | src/overlay.rs:845-859 | The object keeps the invariant and moves, with its answer where it has one, exactly as the close step proved in OverlayRuns says |
| `OverlayWindows.Windows.Update` | src/overlay.rs:703-771 | The object keeps the invariant and moves, with its answer where it has one, exactly as the update step proved in OverlayRuns says |
| `OverlayWindows.Windows.ApplyAction` | src/overlay.rs:601-691 | The object keeps the invariant and moves, with its answer where it has one, exactly as the window action step proved in OverlayRuns says |
| `OverlayWindows.Windows.SetPaneFocus` | src/overlay.rs:490-501 | The object keeps the invariant and moves, with its answer where it has one, exactly as the pane focus step proved in OverlayRuns says |
| `OverlayWindows.Windows.TakeOverflow` | src/overlay.rs:952-954 | The object keeps the invariant and moves, with its answer where it has one, exactly as the overflow report step proved in OverlayRuns says |
| `OverlayWindows.Windows.TakeEvent` | src/overlay.rs:955-962 | The object keeps the invariant and moves, with its answer where it has one, exactly as the event taking step proved in OverlayRuns says |
| `OverlayWindows.Windows.CapturePointer` | src/overlay.rs:963-987 | The object keeps the invariant and moves, with its answer where it has one, exactly as the capture step proved in OverlayRuns says |
| `OverlayWindows.Windows.Keyboard` | src/overlay.rs:1000-1031 | The object keeps the invariant and moves, with its answer where it has one, exactly as the keyboard input step proved in OverlayRuns says |
| `OverlayWindows.Windows.Wheel` | src/overlay.rs:1032-1072 | The object keeps the invariant and moves, with its answer where it has one, exactly as the wheel input step proved in OverlayRuns says |
| `OverlayWindows.Windows.Pointer` | src/overlay.rs:1073-1180 | The object keeps the invariant and moves, with its answer where it has one, exactly as the pointer input step proved in OverlayRuns says |
| `OverlayWindows.Windows.Gesture` | src/overlay.rs:1269-1317 | The object keeps the invariant and moves, with its answer where it has one, exactly as the drag and resize step proved in OverlayRuns says |
| `Semantics.Validate` | src/overlay.rs:165-227 | Accepts exactly the lists whose nodes pass their field checks and form a tree rooted at node 0 with children after parents, one path to each node and at most 32 links; names the scene and size errors exactly |
| `Semantics.CheckFields` | src/overlay.rs:172-192 | Accepts exactly when every node passes its field checks, and otherwise names a check the first failing node fails |
| `Semantics.CheckClaims` | src/overlay.rs:193-213 | Accepts exactly when children are in order and listed once and every node but the root has exactly one parent |
| `Semantics.CheckDepth` | src/overlay.rs:214-225 | Accepts exactly when no route from the root has more than 32 links |
| `Semantics.TreeIsClaimed` | src/overlay.rs:193-225 | One path of at most 32 links to every node if and only if the claims settle and every route is short |
| `Semantics.TreeAcyclic` | src/overlay.rs:193-213 | Along any path from the root indices strictly increase, so no node is its own descendant |
| `CborRoundTrip.EncodableExactly` | src/cbor.rs:308-367 | A value encodes if and only if it respects the depth, length and container limits and every map is strictly sorted |
| `CborRoundTrip.EncodeThenDecode` | src/cbor.rs:236-253 | Decoding an encoded value gives it back, with a non-negative Negative payload read as unsigned; it is the same value if and only if every Negative payload is below zero |
| `CborRoundTrip.DecodeThenEncode` | src/cbor.rs:376-389 | Every accepted byte string is the one encoding of its value |
| `CborRoundTrip.DecodeInjective` | src/cbor.rs:376-389 | No two accepted byte strings carry the same value |
| `CborRoundTrip.KeyOrder` | src/cbor.rs:194-211 | The bytewise order of encoded keys (section 4.2.1 of RFC 8949) is the numeric order of keys |
| `CborPreserving.PreservingAcceptsMaps` | src/cbor.rs:390-434 | For sorted known keys the split succeeds exactly when plain decoding yields a map, and is the partition of its entries |
| `CborPreserving.MergeRestoresBytes` | src/cbor.rs:255-306 | Merging the two halves of any split restores the original bytes, whatever keys were known |
| `CborPreserving.SplitRestoresHalves` | src/cbor.rs:255-306 | Splitting a merge by a sorted key list gives both halves back, preserved bytes included, if and only if the list names every known key and no preserved one |
| `CborPreserving.MergeOkExactly` | src/cbor.rs:255-306 | On sorted halves the interleaving succeeds exactly when no key is shared and every known value encodes |
| `CborCodec.Encoder.MajorLength` | src/cbor.rs:194-211 | Appends the shortest-form head and nothing else |
| `CborCodec.Encoder.Value` | src/cbor.rs:308-345 | Appends the reference encoding, or reports the reference error |
| `CborCodec.Encoder.EncodeInto` | src/cbor.rs:243-253 | The buffer holds the encoding on success and is empty on failure |
| `CborCodec.Encoder.Merge` | src/cbor.rs:255-306 | The two-index loop appends the sorted interleaving, or reports the first collision or failure |
| `CborCodec.EncodeCbor` | src/cbor.rs:236-242 | Returns the reference encoding |
| `CborCodec.EncodePreservingMap` | src/cbor.rs:255-306 | Returns the reference merge, revalidating every preserved value |
| `CborCodec.DecodeCborAtDepth` | src/cbor.rs:380-389 | The cursor decoder returns the reference decoding and refuses trailing bytes |
| `CborCodec.DecodePreservingMap` | src/cbor.rs:390-434 | The cursor loop returns the reference split |
| `CborCodec.Decoder.ReadValue` | src/cbor.rs:442-512 | Consumes exactly what the reference decoder takes off the front, or reports its error |
| `CborCodec.Decoder.ReadArgument` | src/cbor.rs:545-581 | Consumes one argument and refuses every form that is not the shortest |
| `CborCodec.Decoder.ReadContainerLength` | src/cbor.rs:525-544 | Refuses a container longer than the limit or than the remaining input could hold |
| `VectorTypes.ValidatePath` | src/vector.rs:506-521 | Accepts exactly the nonempty bounded paths in which every segment but a move belongs to a subpath that some earlier move opened and no close has ended |
| `VectorRoundTrip.CommandReads` | src/vector.rs:1337-1731 | Reading back a written valid command gives the command |
| `VectorRoundTrip.BrushReads` | src/vector.rs:1280-1330 | Reading back a written valid brush gives the brush, an omitted colour space included |
| `VectorRoundTrip.CommandCarried` | src/vector.rs:1337-1432 | A written valid command stays within CBOR's depth and container limits and survives it unchanged |
| `VectorRewrite.CommandWrites` | src/vector.rs:1604-1731 | Writing a command that was read restores its value, less a spelled-out default colour space or empty dash list |
| `VectorRewrite.RewriteExactly` | src/vector.rs:1604-1731 | Writing a read command gives the same value if and only if it spelled out no default |
| `VectorRewrite.CommandNoLonger` | src/vector.rs:1337-1432 | Writing a read command encodes wherever the original did, in no more bytes |
| `VectorScene.OnlyBytesRefuse` | src/vector.rs:1200-1210 | Encoding a valid scene can fail only because it exceeds 2 MiB; no other limit ever stops it |
| `VectorScene.SceneRoundTrip` | src/vector.rs:1200-1229 | Decoding gives back every scene that was encoded |
| `VectorScene.ReceivedSceneResends` | src/vector.rs:1211-1229 | Whatever is decoded re-encodes in no more bytes, and in the same bytes if and only if nothing spelled out a default |
| `VectorScene.ValidWithinProfile` | src/vector.rs:1088-1199 | A valid scene respects every ceiling of the profile |
| `VectorCanvas.Canvas.Push` | src/vector.rs:998-1004 | Appends the command unless 4096 are there, and then changes nothing |
| `VectorCanvas.Canvas.Validate` | src/vector.rs:1088-1199 | The single pass accepts exactly the valid scenes: fine commands, fresh hit regions, balanced saves, nesting within 32 and totals within bounds |
| `VectorCanvas.Canvas.ValidateWithLimits` | src/vector.rs:1025-1087 | Accepts exactly the scenes that encode within the negotiated bytes and respect every negotiated ceiling |
| `VectorCanvas.ProfileLimitsAddNothing` | src/vector.rs:1025-1087 | Under the profile's own ceilings, passing the limits is the same as encoding at all |
| `VectorCanvas.Canvas.EncodeCanvas` | src/vector.rs:1200-1210 | Returns the scene's encoding, or fails when it is invalid or too long |
| `VectorCanvas.Canvas.DecodeCanvas` | src/vector.rs:1211-1229 | Returns a fresh canvas holding exactly the decoded scene |
| `VectorCanvas.StackStep` | src/vector.rs:1135-1151 | The clip counts on the save stack are those at the innermost open saves, and a restore brings back its own save's |
| `VectorCanvas.PathBuilder.Build` | src/vector.rs:606-646 | Succeeds exactly when every requested segment was representable, at most 4096 were asked for and they form a valid path: that path |
| `VectorCanvas.PathBuilder.Append` | src/vector.rs:618-646 | Records the segment, or remembers for good that something could not be had |
| `RasterDelta.BuiltParses` | src/media.rs:413-587 | A built frame parses back to the same header and operations if and only if every copied rectangle would fit 32 bits as pixels and every compressed payload is taken back by the decompressor as what went in; a larger copy is refused by the parser |
| `RasterDelta.HugeCopyRefused` | src/media.rs:762-764 | A concrete frame the builder makes and the parser refuses |
| `RasterDelta.ParsedRebuilds` | src/media.rs:686-853 | An uncompressed parsed frame rebuilds to identical bytes if and only if its frame ID is nonzero and it is within 64 MiB |
| `RasterDelta.CutJoined` | src/media.rs:737-823 | Joined descriptors and payloads are cut apart into the same pieces exactly when each is acceptable |
| `RasterDelta.JoinCut` | src/media.rs:737-823 | The pieces tile the descriptor array and the payload tail with nothing between or after |
| `RasterDelta.PrefixReads` | src/media.rs:569-581 | The 48-byte header reads back field by field |
| `RasterDelta.PrefixWrites` | src/media.rs:842-851 | A header that was read writes back to its own bytes |
| `RasterDeltaCodec.BuildDelta` | src/media.rs:413-587 | The loop over a descriptor buffer filled in place returns the reference frame or its error |
| `RasterDeltaCodec.ParseDelta` | src/media.rs:686-853 | The two passes return the reference frame or its error |
| `RasterDeltaCodec.CutBody` | src/media.rs:737-823 | The first pass checks every descriptor and records where its payload lies |
| `RasterDeltaCodec.PutDescriptor` | src/media.rs:519-527 | Writes the 32 descriptor bytes at their place and touches nothing else |
| `NalFraming.LengthPrefixedExactly` | src/media.rs:1599-1629 | Accepts exactly the nonempty joins of nonempty length-prefixed units, and writes those units behind start codes |
| `NalFraming.SplitJoinedExactly` | src/media.rs:1747-1763 | Splitting an Annex B buffer gives back the units it was joined from if and only if none contains a start code or ends in zero |
| `NalFraming.ConvertedSplits` | src/media.rs:1599-1763 | Converting a length-prefixed buffer succeeds, and splitting the result gives back its units if and only if each of them is clean |
| `NalFraming.NalsClean` | src/media.rs:1747-1763 | Every unit that is ever split out is nonempty, free of start codes and without a trailing zero |
| `NalFraming.FindsFirst` | src/media.rs:1764-1776 | The search finds the first start code, in its four-byte form where both would do |
| `NalFraming.NormalizesExactly` | src/media.rs:1581-1598 | Normalizing length-prefixed units gives their Annex B form if and only if the first length does not read as a start code (1, or 256 to 511), or every unit is one byte |
| `NalFraming.NormalizesWrongly` | src/media.rs:1581-1598 | A 256-byte unit passes through unconverted |
| `NalFraming.RecordOpens` | src/media.rs:1643-1715 | A built avcC record opens into exactly its two parameter sets |
| `NalFraming.RecordRoundTrip` | src/media.rs:1716-1746 | Every record built from Annex B is rebuilt byte for byte from the parameter sets it opens into |
| `NalFramingCodec.ConvertLengthPrefixed` | src/media.rs:1599-1629 | The cursor loop returns the reference conversion |
| `NalFramingCodec.SplitNals` | src/media.rs:1747-1763 | The shrinking-slice loop returns the reference split |
| `NalFramingCodec.NormalizeUnit` | src/media.rs:1581-1598 | Returns the reference normalization |
| `NalFramingCodec.BuildRecord` | src/media.rs:1716-1746 | Returns the reference avcC record |
| `NalFramingCodec.OpenRecord` | src/media.rs:1643-1693 | The two counting loops return the reference parameter sets |
| `Observation.NoSilentLoss` | src/observation.rs:98-182 | In any run, each accepted push has its payload or a newer one of its key queued, delivered, evicted under a gap told afterwards or still pending that covers the entry's class, or dropped by a later subscription |
| `Observation.NumbersConsecutive` | src/observation.rs:159-182 | In every run what is told is numbered 1, 2, 3 and so on until the 64-bit counter stays at its end, and every gap names its own number as first lost |
| `Observation.RunSafe` | src/observation.rs:84-182 | In every reachable state keys are unique, the queue is within capacity and holds only subscribed classes, and a pending gap names the next number |
| `Observation.CoalescingKeepsClass` | src/observation.rs:133-136 | A coalesced payload stays under the class its key was first queued with, in the same place, and nothing is noted as lost |
| `ObservationQueue.DrainAllTells` | src/observation.rs:184-191 | A full drain empties the queue and tells the pending gap and then every entry in order |
| `ObservationQueue.ObservationQueue.Push` | src/observation.rs:122-147 | Moves the queue exactly as the push step proved in Observation says |
| `ObservationQueue.ObservationQueue.Subscribe` | src/observation.rs:98-109 | Refuses unknown classes, else replaces the mask and drops what is no longer listened to |
| `ObservationQueue.ObservationQueue.TakeNext` | src/observation.rs:159-182 | Tells the pending gap first, else the oldest entry |
| `ObservationQueue.ObservationQueue.TakeAll` | src/observation.rs:184-191 | The loop returns the full drain |
| `Lease.OneSession` | src/lease.rs:259-463 | All decisions of a run name one session |
| `Lease.ReplaysRepeatLatest` | src/lease.rs:492-511 | Every exact replay repeats the session, nonce and welcome of the latest fresh answer, to a request with the same attempt ID, nonce and HELLO hash |
| `Lease.GenerationsSpentOnce` | src/lease.rs:393-463 | Fresh resumes spend strictly increasing generations, so each is consumed at most once |
| `Lease.SuspendsOnly` | src/lease.rs:354-391 | A lease becomes suspended if and only if an admitted active session is lost uncleanly under the suspend policy with nonzero grace |
| `Lease.TerminalAbsorbs` | src/lease.rs:464-491 | Closed, revoked and expired leases refuse every call and never change |
| `Lease.FreshIsRepeatable` | src/lease.rs:259-463 | Repeating a freshly answered request gives the same answer as an exact replay and changes nothing |
| `Lease.FailureTracesExactly` | src/lease.rs:259-520 | A refused call changes the lease if and only if the last revision is spent and the call is one whose guards let it move before it counts |
| `Lease.ExhaustedCommitStillActivates` | src/lease.rs:335-341 | At the last revision a commit is refused, yet the lease is active |
| `Lease.RunSafe` | src/lease.rs:232-519 | In every reachable state the attempt, session and fingerprint are present exactly in their states and agree with each other |
| `LeaseMachine.LeaseMachine.BeginActivation` | src/lease.rs:259-333 | The transition moves every field and answers exactly as the step proved in Lease says |
| `LeaseMachine.LeaseMachine.CommitWelcome` | src/lease.rs:335-341 | The transition moves every field and answers exactly as the step proved in Lease says |
| `LeaseMachine.LeaseMachine.AdmitPostHello` | src/lease.rs:343-352 | The transition moves every field and answers exactly as the step proved in Lease says |
| `LeaseMachine.LeaseMachine.ConfirmTransportLost` | src/lease.rs:354-391 | The transition moves every field and answers exactly as the step proved in Lease says |
| `LeaseMachine.LeaseMachine.BeginResume` | src/lease.rs:393-462 | The transition moves every field and answers exactly as the step proved in Lease says |
| `LeaseMachine.LeaseMachine.End` | src/lease.rs:464-490 | The transition moves every field and answers exactly as the step proved in Lease says |
| `Input.TuplesNeverRepeat` | src/input.rs:380-445 | Every issued tuple has a generation above all issued before it |
| `Input.NeverAgain` | src/input.rs:447-512 | Once a tuple that held has been revoked or superseded, no event bearing it is authorized in any later state |
| `Input.AuthorizedIsFresh` | src/input.rs:486-512 | What is authorized was granted, or last renewed, less than one timeout ago, by the last refreshing call of the run |
| `Input.GrantsConserved` | src/input.rs:527-536 | The enabled outcomes of a run number the releases plus one if a grant stands |
| `Input.FailureChangesNothing` | src/input.rs:380-485 | Failing calls and exact retries change nothing |
| `Input.RunSafe` | src/input.rs:363-542 | A standing grant carries the current generation, the latest binding and only classes that binding requested |
| `InputGate.InputGate.BindInput` | src/input.rs:380-445 | Moves the gate and answers exactly as the step proved in Input says |
| `InputGate.InputGate.RenewActive` | src/input.rs:447-475 | Moves the gate and answers exactly as the step proved in Input says |
| `InputGate.InputGate.RevokeActive` | src/input.rs:477-484 | Moves the gate and answers exactly as the step proved in Input says |
| `InputGate.InputGate.Admit` | src/input.rs:486-512 | Moves the gate and answers exactly as the step proved in Input says |
| `InputGate.InputGate.Dispatch` | src/input.rs:516-525 | Runs the operation only on an authorized event, and returns its result or the rejection |
| `Grant.SteadyPollingKeepsGrant` | src/grant.rs:246-265 | Polled at nondecreasing times at most half a timeout apart, a grant keeps its tuple and its watchdog fed, and its renewals are at least the other half apart with increasing sequences |
| `Grant.SteadilyAlive` | src/grant.rs:272-276 | Under such polling the watchdog has not run out at any moment up to half a timeout past the last poll |
| `Grant.EnabledGrantSurvives` | src/grant.rs:69-276 | After any calls, a binding that is enabled was fully eligible, and polls at most half its timeout apart from then on keep its tuple, space and number its renewals, and never let its watchdog run out |
| `Grant.PollFeeds` | src/grant.rs:246-265 | A timely poll renews if and only if half the timeout, rounded up, has run since the last refresh |
| `Grant.AlwaysAgrees` | src/grant.rs:119-276 | In every reachable state the reported state, timeout, sequence and generation agree with the inner gate |
| `Grant.EnabledExactlyWhenEligible` | src/grant.rs:69-96 | A fresh binding the gate takes is enabled if and only if every eligibility holds, with exactly the capable classes; otherwise it is denied with the first ground |
| `Grant.RevocationCanFail` | src/grant.rs:224-240 | A revocation of a standing grant reports nothing, and leaves it standing, if and only if a counter is exhausted |
| `Grant.PollWastesExactly` | src/grant.rs:246-265 | A poll renews nothing and still spends a sequence number if and only if a renewal is due and the deadline has passed or the next deadline would not fit the clock; any other poll that renews nothing changes nothing |
| `Grant.PollsCanBeWasted` | src/grant.rs:246-265 | After one enabling binding both grounds are met: a poll at the deadline, and a timely poll near the end of the clock |
| `InputGrant.InputGrant.Apply` | src/grant.rs:162-219 | Moves the grant and its gate, or answers, exactly as the step proved in Grant says |
| `InputGrant.InputGrant.Revoke` | src/grant.rs:224-240 | Moves the grant and its gate, or answers, exactly as the step proved in Grant says |
| `InputGrant.InputGrant.TakeDueRenewal` | src/grant.rs:246-265 | Moves the grant and its gate, or answers, exactly as the step proved in Grant says |
| `InputGrant.InputGrant.WatchdogExpired` | src/grant.rs:272-276 | Moves the grant and its gate, or answers, exactly as the step proved in Grant says |
| `TokenBuckets.WaitIsExact` | src/resource.rs:281-302 | A wait earns the deficit if and only if it is at least the time told |
| `TokenBuckets.ShorterWaitFails` | src/resource.rs:281-302 | After any shorter wait nothing has overflowed and the charge is refused |
| `TokenBuckets.FullWaitSuffices` | src/resource.rs:256-302 | After the time told, or longer, the charge succeeds, and the replenishment itself fails if and only if the tokens earned exceed 64 bits |
| `TokenBuckets.ExactWaitCanOverflow` | src/resource.rs:256-275 | A concrete bucket whose exact wait overflows |
| `TokenBuckets.NoWaitMeansNow` | src/resource.rs:281-310 | No wait is asked for if and only if the charge succeeds now |
| `TokenBuckets.NeverMeansNever` | src/resource.rs:281-310 | A charge refused for good is refused after every run of waits and charges |
| `TokenBuckets.ReplenishAdds` | src/resource.rs:256-275 | Replenishing twice equals replenishing once for both spans, even across the cap; where the single call overflows and the two do not, the two leave the bucket full and the tokens earned exceed 64 bits |
| `TokenBuckets.ChargesBounded` | src/resource.rs:237-310 | Units charged in any run, failed calls included, are at most the capacity plus the rate over the time waited |
| `TokenBuckets.TokenBucket.Refill` | src/resource.rs:256-275 | Moves tokens and remainder exactly as the replenish step says, the remainder also when the tokens overflow |
| `TokenBuckets.TokenBucket.WaitFor` | src/resource.rs:281-302 | Returns the exact wait or its error and changes nothing |
| `TokenBuckets.TokenBucket.Take` | src/resource.rs:304-310 | Charges or refuses, and a refusal changes nothing |
| `Scenes.NodesAreReplay` | src/scene.rs:245-336 | The nodes are always the committed mutation lists applied in commit order with the surface cleanups in between |
| `Scenes.OpenTransactions` | src/scene.rs:167-243 | An open transaction holds exactly what was gathered for it since it began, whatever ran in between |
| `Scenes.UncommittedIsInvisible` | src/scene.rs:167-317 | Leaving a transaction that never commits out of a run changes no node, no revision and no other transaction |
| `Scenes.ContextsIsolated` | src/scene.rs:185-317 | No operation of one context touches another context's nodes |
| `Scenes.LastMutationWins` | src/scene.rs:266-306 | After an applied list each key is as its last mutation left it, and unnamed keys are as before |
| `Scenes.FailureTracesExactly` | src/scene.rs:167-336 | A failed call changes the scene if and only if it is a cleanup of a surface with nodes at the last revision |
| `Scenes.ExhaustedCleanupStillRemoves` | src/scene.rs:319-336 | At the last revision a cleanup removes its nodes and fails if and only if there were any |
| `Scenes.RevisionCountsChanges` | src/scene.rs:308-336 | The revision is the number of commits and of cleanups that removed something |
| `SceneStore.Scene.BeginTransaction` | src/scene.rs:167-183 | Moves the scene and answers exactly as the step proved in Scenes says |
| `SceneStore.Scene.CreateIn` | src/scene.rs:185-202 | Moves the scene and answers exactly as the step proved in Scenes says |
| `SceneStore.Scene.UpdateIn` | src/scene.rs:204-221 | Moves the scene and answers exactly as the step proved in Scenes says |
| `SceneStore.Scene.DeleteIn` | src/scene.rs:223-237 | Moves the scene and answers exactly as the step proved in Scenes says |
| `SceneStore.Scene.AbortTransaction` | src/scene.rs:239-243 | Moves the scene and answers exactly as the step proved in Scenes says |
| `SceneStore.Scene.CommitIn` | src/scene.rs:245-317 | Moves the scene and answers exactly as the step proved in Scenes says |
| `SceneStore.Scene.BuildCandidate` | src/scene.rs:266-306 | The candidate loop returns the whole list applied, or nothing |
| `SceneStore.Scene.RemoveSurfaceReferences` | src/scene.rs:319-336 | Moves the scene and answers exactly as the step proved in Scenes says |
| `FitGeometry.FitHolds` | src/geometry.rs:215-262 | Every contained quad lies inside the destination and every covering quad contains it; one axis is exact and the other within one unit of the aspect; margins are even to one unit |
| `FitGeometry.FitExactly` | src/geometry.rs:215-262 | There is a quad if and only if the display size fits 64 bits, a scaled destination is not negative, and the ideal size, each axis as if scaled by the other, is at least one unit, fits 64 bits and centres without overflow; the quad has that size |
| `FitGeometry.ContainedAxes` | src/geometry.rs:237-252 | Containing leaves both axes at least one unit if and only if the destination has both and neither axis scaled by the other falls below one unit |
| `FitGeometry.FitCanFail` | src/geometry.rs:215-262 | A contained picture whose thin axis floors to nothing, and a covering one that leaves 64 bits |
| `FitGeometry.ScaledFits` | src/geometry.rs:237-252 | The selected scale makes one axis exact and bounds the other from the promised side |
| `FitGeometry.AxisExact` | src/geometry.rs:434-479 | Scaling by the ratio of one axis makes that axis exact and the other short of the aspect by less than one unit |
| `FitGeometry.CentreKeeps` | src/geometry.rs:253-262 | Centring with truncation toward zero keeps containment both ways, with margins even to one unit |
| `FitGeometry.UnscaledFits` | src/geometry.rs:237-262 | Filling is the destination itself, and the natural size is kept and centred |
| `FitGeometry.IntersectExactly` | src/geometry.rs:265-281 | The intersection covers exactly the points both rectangles cover if the far edges of both fit 64 bits, and otherwise there is none |
| `FitGeometry.OverflowingClipVanishes` | src/geometry.rs:265-281 | A rectangle whose far edge overflows does not even intersect itself |

## Left out

- Lease.ReplaysRepeatLatest: compares HELLO hashes, not HELLO bytes, because collision resistance of SHA-256 is not modelled.
- The wire encodings of overlay actions, options and events (`src/overlay.rs` uses a `wire` submodule, which is not part of this model); actions are a plain datatype.
- Accessors that only read a field (`get`, `visible`, `hovered_window`, `cursor`, `mask`, `state` and their like).
- The narrower hit result of the wheel: it takes the same hit test as the pointer and ignores the region's identity and cursor.
- Semantic roles, numeric values, heading levels, toggles and the disabled flag: validation never looks at them.
- The CBOR encoder's incremental map and array calls, and its clearing of secrets on drop.
- Vector frames, retained image assets, asset releases and the map form of negotiated limits: fixed headers around parts that are modelled.
- Shape constructors that compute curves in floating point (`rounded_rectangle_corners`, `ellipse`), and the conversion of `f64` coordinates to fixed point; the path builder takes fixed-point coordinates.
- Video, audio and full raster frame bodies, codec initialization headers, and the decoder description built from an avcC record.
- The Zstandard library itself, including its dictionary and trailing-frame checks: part of the arbitrary decompressor.
- The guard that actionable records are never queued as observations: a debug assertion on constants.
- Lease definitions, their field checks and their wire form; cryptographic verification of activation.
- Input event schemas and coordinate range checks; `INPUT_BOUND` and `INPUT_LEASE_RENEW` payloads.
- Resource contracts, reservations and channel flow control beside the token bucket.
- Scene node schemas, and the session check of a node lookup.
- Geometry maps, normalized projection, clip schemas, rotation and desktop coordinate mapping.
- Trace, discovery, registry, HID and identity tables, and the fixed-key record schemas of `src/messages.rs` and its neighbours: they would only add easy members.
