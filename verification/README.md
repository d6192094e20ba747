# Totem firmware: verified cores

A Dafny model of the parts of the Totem firmware whose guarantees hold over unbounded
runs, with machine-checked proofs of those guarantees. Code that changes state in place
is modelled by classes, arrays and loops proved against specification functions; the
properties are proved about those functions, or about step systems for the parts that
run as several tasks. `dafny verify dfyconfig.toml` checks the whole project.

- **Byte arena** (`ArenaModel`, `ArenaProofs`, `ArenaStore`, `ArenaCapacity`, `ArenaRuns`,
  `ByteArena`): the best-fit allocator with its span table, slot table and eviction loop.
- **Slotted map and directory** (`SlottedIndex`, `SlottedModel`, `SlottedRuns`, `SlottedMap`,
  `Directory`):
  the dense slot array with its open-addressed index, tombstones and swap-with-last
  removal, and filtered extraction on top of it.
- **Assistant turn** (`ByteRing`, `AssistantUpload`, `UploadRuns`, `CaptureRuns`, `UploadTurns`,
  `AssistantPlayback`, `PlaybackRuns`, `PlaybackTurns`, `ResponseTurn`):
  the front end and the network task sharing the capture ring, the playback worker and
  the network task sharing the playback ring, and the events of a response. The two rings
  are step systems; every theorem about them is over all interleavings.
- **WebSocket reassembly** (`WebSocketModel`, `WebSocket`): messages from fragments, under
  any split of frames into reads and any timeouts between receive calls.
- **Downsampler** (`DownsamplerModel`, `Downsampler`): its three levels of carried state.
- **Master and LED startup** (`Orchestration`, `LayerScreen`, `Slideshow`, `LedBringupModel`,
  `LedBringupRuns`, `LedBoot`, `LedBringup`): the spectrum-visual sequencer and wheel publisher
  over a bus that may fail, with a display at its other end that fades its layers, cancels fades
  and renders frames in between; and the protocol that enables the LED outputs over a network
  that may lose, delay and repeat messages.
- **Functional cores** (`Json`, `JsonRoundTrip`, `JsonNumeral`, `JsonSyntax`, `JsonErrors`,
  `JsonParser`, `LedRender`, `LatencyModel`, `LatencyStats`, `CheckedMath`, `Wire`,
  `WireSyntax`): the JSON parser, its escaper and the trace metadata; latency percentiles;
  overflow-checked arithmetic; the wire encoder.

## How the code is modelled

- Time is an argument. 32-bit clocks and counters wrap explicitly where their wrap shows.
- What comes from outside is an argument or a field that holds the environment's coming
  answers: publish outcomes, short reads, hook results, whether a wait ended.
- A key's hash, the finiteness of a number token as a double, the float scaling of a wheel
  angle, and Python's reading of text are function parameters, so the proofs hold for any.
- In `AssistantUpload` each step is one access to shared state by the front end or by the
  network task, except that finishing a capture and emptying the ring are one step each. In
  `AssistantPlayback` the worker runs from one blocking call to the next, since both tasks
  share a core and the worker has the higher priority (src/ai/config.hpp:219-226), while the
  network task takes one shared access at a time, except that resetting the flags of a new
  turn and emptying the ring are one step each.

## Where the code does less than one may expect

- A record of no bytes shares its offset with the next record. `StoreKeepsIffNonEmpty` says
  that a store keeps the arena well formed exactly when its payload is not empty, and
  `EmptyStoreBlocksRelease` what goes wrong otherwise.
- The cleaning cutoff is an unsigned difference, so before the clock reaches the record age
  fresh records can go. `CleanFollowsAge` gives the exact condition.
- A WebSocket close status is read from the last piece of its frame only.
  `CloseCodeRightExactly` says when it is the one sent.
- A layer swap that is delivered although its publish failed is staged again by the next
  pass, while the display is still fading. The first command of that staging cancels the fade.
  If no frame has moved it yet, the display goes on to the hidden layer (`RepeatInTime`);
  otherwise no later swap is accepted (`RepeatTooLate`), and one more staging leaves both
  layers out (`StageAgain`). `FrontExactly` gives the exact condition of each staging.
- The layer startup publish, repeated after a failure, sets the enables of both visual layers
  and cancels a fade. `EnablingEnds` says when a layer is left in front.
- Normal operation is withdrawn for the length of the boot animation each time the 32-bit
  clock has gone round since it was published (`NormalOperationLapses`).

## Model

| member | source | states |
|---|---|---|
| `ArenaRuns.RunKeeps` | include/Generic/ByteArena.hpp:38-155 | Any run of stores of non-empty payloads, releases and cleanings keeps the arena well formed: spans tile the buffer with positive sizes, no two free spans are adjacent, and occupied slots and busy spans match one to one by offset |
| `ArenaRuns.RunReadsLastStored` | include/Generic/ByteArena.hpp:58-155 | After any such run a key that is still held reads back exactly the bytes and the time of its last successful store |
| `ArenaRuns.RunHoldsWhatIsKept` | include/Generic/ByteArena.hpp:38-155 | After any such run a key is held exactly while its last stored record has been neither evicted, nor released, nor cleaned away as stale, and reads back as that record |
| `ArenaStore.StoreKeeps` | include/Generic/ByteArena.hpp:58-112 | A store of a non-empty payload keeps the arena well formed and never ends in the impossible statuses of the release and placement code |
| `ArenaStore.StoreStatus` | include/Generic/ByteArena.hpp:58-112 | The status of every store of a non-empty payload, from the arena and the arguments alone: too large, held already, or else, for a noncritical record, stored exactly if it fits and reported as dropped otherwise; for a critical one, stored exactly if it fits after some evictions whose hooks all answer well, failed by the first hook that does not, and rejected as overflow if nothing is left to evict |
| `ArenaStore.CriticalStoreRejected` | include/Generic/ByteArena.hpp:58-112 | While the hooks answer well, a critical store overflows exactly if no number of evictions makes room for it |
| `ArenaStore.StoreRecords` | include/Generic/ByteArena.hpp:58-112 | A store adds its own record if it succeeds, removes exactly the records it evicted and leaves every other record as it was |
| `ArenaStore.NoncriticalChangesNothing` | include/Generic/ByteArena.hpp:84-90 | A noncritical record that is not stored leaves the whole arena unchanged, so it never displaces another |
| `ArenaStore.StoreEvictsOldest` | include/Generic/ByteArena.hpp:92-111 | Evicted records are noncritical, each evicted once, oldest first, and none is younger than a noncritical record that stays |
| `ArenaStore.StoreEvictsOnlyWhileFull` | include/Generic/ByteArena.hpp:64-111 | Every arena before the last eviction had no room for the record: eviction stops at the first fit, and without success only evictions have happened |
| `ArenaStore.RejectionLeavesCritical` | include/Generic/ByteArena.hpp:92-101 | A critical store is rejected only when no noncritical record is left, and what stays are exactly the earlier critical records, unchanged, also when the hook that reports the rejection fails |
| `ArenaStore.StoreReports` | include/Generic/ByteArena.hpp:84-97 | What the hooks that report a dropped or rejected record answer decides the status of the store, and neither the arena nor the evictions |
| `ArenaStore.OldestSlotIsOldest` | include/Generic/ByteArena.hpp:203-216 | The slot chosen for eviction is noncritical and no younger than any noncritical record held |
| `ArenaProofs.ReleaseSlotKeeps` | include/Generic/ByteArena.hpp:246-262 | Releasing an occupied slot always succeeds: its NotFound and InvalidState branches cannot be taken |
| `ArenaProofs.ReleaseSlotRecords` | include/Generic/ByteArena.hpp:246-262 | Releasing a slot removes its record and no other |
| `ArenaProofs.ReleaseSlotRefuses` | include/Generic/ByteArena.hpp:246-262 | A slot that is not occupied, or whose span is free, is refused as invalid, and one without a span as not found; the arena stays as it is |
| `ArenaProofs.StoreRecordRefuses` | include/Generic/ByteArena.hpp:286-303 | A split without room in the span table overflows, and an occupied slot or span, or too small a span, is refused as invalid |
| `ArenaProofs.ReleaseKeepsTable` | include/Generic/ByteArena.hpp:264-284 | Releasing a span removes exactly that busy span, merges it with its free neighbours on both sides and keeps the span table sound and coalesced |
| `ArenaProofs.OccupyKeepsTable` | include/Generic/ByteArena.hpp:286-314 | Splitting a free span adds exactly the new busy span and keeps the table sound |
| `ArenaProofs.PlaceKeeps` | include/Generic/ByteArena.hpp:64-83 | Placing a new non-empty record succeeds or overflows, keeps the arena well formed and never reports another error |
| `ArenaProofs.PlaceRecords` | include/Generic/ByteArena.hpp:286-314 | A placed record reads back as stored and every other record is as before |
| `ArenaStore.PlaceExactly` | include/Generic/ByteArena.hpp:64-83 | A record is placed exactly if a slot is free and a free span has its size, or is larger while the span table can take what is left of it; otherwise placing overflows |
| `ArenaCapacity.SpanCountBound` | include/Generic/ByteArena.hpp:264-314 | Coalescing is complete: there are at most two spans for each record held, and one more |
| `ArenaCapacity.EnoughSpansNeverOverflow` | include/Generic/ByteArena.hpp:286-303 | With two spans per slot, a free slot and a span that fits, placing never overflows |
| `ArenaCapacity.CriticalStoreSucceeds` | include/Generic/ByteArena.hpp:58-112 | With at least two spans and one slot, a critical store of any non-empty payload up to the buffer size succeeds whenever no critical record is held |
| `ArenaRuns.CleanRecords` | include/Generic/ByteArena.hpp:38-56 | Cleaning succeeds and removes exactly the records stamped below the cutoff |
| `ArenaRuns.CleanFollowsAge` | include/Generic/ByteArena.hpp:42-50 | The age rule is met for a held record if and only if the clock has reached the allowed age or the record is stamped at or above the wrapped cutoff |
| `ArenaRuns.EarlyCleanDropsFreshRecord` | include/Generic/ByteArena.hpp:42 | An input on which a record stamped just now is cleaned away, because the unsigned cutoff wraps |
| `ArenaRuns.ReleaseRecords` | include/Generic/ByteArena.hpp:139-152 | Releasing a key removes its record, if any, and no other |
| `ArenaRuns.StoreKeepsIffNonEmpty` | include/Generic/ByteArena.hpp:58-112 | A successful store keeps the arena well formed if and only if the payload is not empty |
| `ArenaRuns.SharedOffsetLosesSpan` | include/Generic/ByteArena.hpp:246-262 | With two busy spans at one offset, releasing the later record frees the empty span and leaks the real one |
| `ArenaRuns.EmptyStoreSharesOffset` | include/Generic/ByteArena.hpp:286-303 | How placing an empty record makes its span share the offset of the free span behind it |
| `ArenaRuns.EmptyStoreBlocksRelease` | include/Generic/ByteArena.hpp:58-152 | From any fresh arena: a store of no bytes, a store of some bytes under another key and the release of that one all succeed, and then the first record can no longer be released |
| `ArenaModel.FindFreeSpan` | include/Generic/ByteArena.hpp:180-201 | The span chosen is a free one that fits, of the smallest such size, and the first of these |
| `ByteArenas.ByteArena.constructor` | include/Generic/ByteArena.hpp:34-36 | A new arena is one free span over the whole buffer, and well formed, so the results over runs start from it |
| `ByteArenas.ByteArena.FindFreeSpan` | include/Generic/ByteArena.hpp:180-201 | The best-fit loop over the span array finds the span of the specification |
| `ByteArenas.ByteArena.FindOldestDroppableSlot` | include/Generic/ByteArena.hpp:203-216 | The scan of the slot array finds the oldest noncritical slot of the specification |
| `ByteArenas.ByteArena.ReleaseSpan` | include/Generic/ByteArena.hpp:264-284 | Freeing and coalescing in place, by shifting the span array, is the specified release; a span that is not occupied is refused |
| `ByteArenas.ByteArena.ReleaseSlot` | include/Generic/ByteArena.hpp:246-262 | Releasing a slot in place is the specified release, its error statuses included |
| `ByteArenas.ByteArena.StoreRecord` | include/Generic/ByteArena.hpp:286-314 | Splitting in place, by shifting the span array, and copying the payload is the specified placement |
| `ByteArenas.ByteArena.Store` | include/Generic/ByteArena.hpp:58-112 | The whole store, with its eviction loop, computes the status, arena and evictions of the specification |
| `ByteArenas.ByteArena.Release` | include/Generic/ByteArena.hpp:139-152 | Release by key in place is the specified release |
| `ByteArenas.ByteArena.Clean` | include/Generic/ByteArena.hpp:38-56 | Cleaning in place is the specified cleaning |
| `ByteArenas.ByteArena.GetRaw` | include/Generic/ByteArena.hpp:120-132 | Reading copies the requested bytes from the place of the record in the buffer and changes nothing else |
| `ArenaProofs.RawBytesAreRecord` | include/Generic/ByteArena.hpp:120-132 | A read that stays within its record gives exactly that slice of the stored bytes |
| `ByteArenas.ByteArena.Contains` | include/Generic/ByteArena.hpp:158-169 | A key is contained exactly when a record is held for it |
| `SlottedRuns.RunRefinesMap` | include/Types/Collection.hpp:134-253 | Over any run of insert, remove, extract, lookup and clear the table stays sound, holds exactly what a finite map would and answers every operation with the status and entry the map gives, so no ABORT branch is ever taken |
| `SlottedRuns.StepOrders` | include/Types/Collection.hpp:156-236 | A new entry comes last in the slots, a removed one is replaced by the last one, and every other operation keeps the order |
| `SlottedRuns.RunLeavesRestBlank` | include/Types/Collection.hpp:156-236 | Over any run the slots that are not in use are blank: nothing of a removed entry stays behind |
| `SlottedModel.InsertIsUpdate` | include/Types/Collection.hpp:157-175 | An insert fails only for a held key or a full map; otherwise it appends the slot and updates the map |
| `SlottedModel.ExtractIsRemove` | include/Types/Collection.hpp:221-253 | Extraction gives the entry of a held key and removes exactly that key; no ABORT branch is reachable |
| `SlottedModel.VacateIsSound` | include/Types/Collection.hpp:186-204 | Erasing, moving the last slot into the hole and re-indexing it never meets a corrupt or full index |
| `SlottedModel.RemoveAtIsRemove` | include/Types/Collection.hpp:192-206 | Swap-with-last removal of a dense slot, read as a map, removes that key and nothing else |
| `SlottedModel.FindIndexIsLookup` | include/Types/Collection.hpp:295-313 | The probe loop finds the slot of a held key, and finds nothing for a key that is not held |
| `SlottedModel.ClearedIsEmpty` | include/Types/Collection.hpp:210-219 | A cleared table is sound and holds nothing |
| `SlottedIndex.SearchFindsLive` | include/Types/Collection.hpp:295-313 | Every live slot is reached from its hash with no empty entry before it |
| `SlottedIndex.SearchMissesDead` | include/Types/Collection.hpp:295-313 | A search for a key of no live slot ends without a slot, whatever tombstones and stale keys there are |
| `SlottedIndex.EraseServes` | include/Types/Collection.hpp:360-379 | A tombstone in place of one slot still serves all other live slots |
| `SlottedIndex.InsertServes` | include/Types/Collection.hpp:315-358 | Filling the place the insert chooses, a reused tombstone included, serves the new slot beside all old ones |
| `SlottedIndex.InsertTryIsFirst` | include/Types/Collection.hpp:315-358 | A new key goes to the first index entry on its way that is not occupied, so the first tombstone is used again |
| `SlottedIndex.InsertTryMeetsKey` | include/Types/Collection.hpp:315-358 | A key that is met on the way is not entered again |
| `SlottedIndex.InsertHasRoom` | include/Types/Collection.hpp:315-358 | The index never runs out of room while fewer slots are live than it has entries |
| `SlottedIndex.PosIsRemainder` | include/Types/Collection.hpp:295-313 | Linear probing visits the position (hash + probe) modulo the index size |
| `SlottedMaps.SlottedMap.FindIndex` | include/Types/Collection.hpp:295-313 | The probe loop over the index array is the specified search |
| `SlottedMaps.SlottedMap.IndexInsert` | include/Types/Collection.hpp:315-358 | The insert loop, with its remembered tombstone, is the specified one |
| `SlottedMaps.SlottedMap.IndexErase` | include/Types/Collection.hpp:360-379 | The erase loop is the specified one |
| `SlottedMaps.SlottedMap.Get` | include/Types/Collection.hpp:134-151 | A lookup gives the entry that the map holds for the key, or NotFound |
| `SlottedMaps.SlottedMap.Insert` | include/Types/Collection.hpp:157-175 | Insertion in place updates the map exactly as a finite map, with its failure statuses |
| `SlottedMaps.SlottedMap.Extract` | include/Types/Collection.hpp:221-253 | Extraction in place removes exactly the key from the map and returns its entry |
| `SlottedMaps.SlottedMap.Remove` | include/Types/Collection.hpp:177-208 | Removal in place removes exactly the key from the map, or reports NotFound |
| `SlottedMaps.SlottedMap.Clear` | include/Types/Collection.hpp:210-219 | Clearing in place empties the map |
| `Directories.RemovingSelectedLeavesRest` | include/Generic/Directory.hpp:249-279 | Taking the selected entries out of the map leaves exactly the entries that fail the filter |
| `Directories.SelectedIsHeld` | include/Generic/Directory.hpp:269-276 | Although each extraction swaps slots, the next selected key is still held with its own entry |
| `Directories.SelectedInOrder` | include/Generic/Directory.hpp:252-264 | The selected keys come in slot order, and none that passes the filter is missing |
| `Directories.Directory.SnapshotKeys` | include/Generic/Directory.hpp:257-264 | The snapshot holds the keys that pass the filter, in slot order |
| `Directories.Directory.ExtractKeys` | include/Generic/Directory.hpp:269-276 | Extracting the snapshot key by key never fails and returns the entries in snapshot order |
| `Directories.Directory.Extract` | include/Generic/Directory.hpp:249-279 | Filtered extraction succeeds, returns exactly the entries that pass the filter in slot order, and leaves exactly the rest |
| `UploadRuns.CommitUploadsWhatWasHeard` | src/ai/assistant_session.hpp:1095-1170 | On every interleaving of front end and network task, a committed turn has sent exactly the samples captured since its wake word, in order, once each, in even payloads within the append limit, after speech that ended by silence or by the time limit |
| `UploadRuns.AnyCommandCanCommit` | src/ai/assistant_session.hpp:694-1170 | Turns do commit: for any command, however many payloads it fills, and whether it ends by silence or at the time limit, there is a run from wake word to commit that uploads exactly these payloads and then what is left |
| `UploadRuns.RunIsSound` | src/ai/assistant_session.hpp:694-859 | Every reachable state is sound: buffers fit, flags and positions agree, and heard samples are sent, buffered, in flight, queued or pending, in that order |
| `CaptureRuns.CaptureEndsAsFramesSay` | src/ai/assistant_session.hpp:694-847 | On every run a capture ends by silence only on the first quiet frame right after speech, for want of speech only on a frame past that time with no speech in the turn, and at the time limit only on a frame past it; and while it goes on, none of its frames gave a reason to end it |
| `CaptureRuns.JudgedFrameDecides` | src/ai/assistant_session.hpp:804-829 | The exact reason, if any, that the judgement of each frame gives to a capture that is still running |
| `CaptureRuns.CommitHoldsWhatWasCaptured` | src/ai/assistant_session.hpp:694-1170 | Each commit holds the samples of the frames captured since the wake word, wake frame first, in which there was speech, and the end that the last of them gave |
| `CaptureRuns.WritersAreCounted` | src/ai/assistant_session.hpp:767-785 | The writer count is right in every state, so the network task never waits for a writer that has left |
| `CaptureRuns.NothingIsSentAfterwards` | src/ai/assistant_session.hpp:767-785 | Once samples are no longer accepted and no writer is left, the ring gets no more until the next turn |
| `UploadTurns.GivenUpForAReason` | src/ai/assistant_session.hpp:1044-1170 | The network task drops a turn only after a bad answer, an end that is no command, or a turn without speech; after a bad answer it commits nothing; and while it drains the ring, the ring is shut |
| `UploadTurns.EndedTurnIsSettled` | src/ai/assistant_session.hpp:1044-1170 | From every reachable state in which a capture has ended, a network task that is answered well comes to the end of the turn: a commit exactly if it ended by silence or the time limit and held speech, and else a reset with the ring empty |
| `UploadTurns.EndHasItsCause` | src/ai/assistant_session.hpp:831-860 | For each reason but those of the frames, the only step that ends a running capture with it |
| `UploadTurns.RunDoesJob` | src/ai/assistant_session.hpp:694-735 | The front end works on the frame or stop it was given last, and on nothing else |
| `UploadTurns.FrontEndMovesOn` | src/ai/assistant_session.hpp:694-860 | The front end waits for nobody, and is done with each job after at most fifteen steps |
| `UploadTurns.StopEndsCapture` | src/ai/assistant_session.hpp:849-860 | Stopping the pipeline ends a running capture, and does nothing else |
| `UploadTurns.OverflowEndsCapture` | src/ai/assistant_session.hpp:779-791 | A frame ends the capture as overflow exactly if it does not fit the ring |
| `UploadTurns.LostTurnIsNotConnected` | src/ai/assistant_session.hpp:1044-1062 | A turn that ended without a command before the network task took it up is not connected |
| `UploadTurns.WritersAreAwaited` | src/ai/assistant_session.hpp:1715-1725 | A registered writer is waited for, at most until the wait is over |
| `AssistantUpload.AfeKeeps` | src/ai/assistant_session.hpp:694-829 | Every step of the front end, from wake check to endpoint and pipeline stop, keeps that invariant |
| `AssistantUpload.NetKeeps` | src/ai/assistant_session.hpp:1044-1191 | Every step of the network task, from the turn decision to commit and cleanup, keeps that invariant |
| `AssistantUpload.SendSamplesKeepConserved` | src/ai/assistant_session.hpp:772-802 | Moving a frame into the ring keeps the gathered samples; a frame that does not fit ends the capture as an overflow |
| `AssistantUpload.ReceiveKeepsConserved` | src/ai/assistant_session.hpp:1152-1168 | Taking a contiguous piece off the ring into the upload buffer loses and repeats nothing |
| `AssistantUpload.LastSendKeeps` | src/ai/assistant_session.hpp:1112-1127 | The final drain and the partial append leave the ring and the upload buffer empty before the commit |
| `ByteRing.ReceiveUpTo` | src/ai/assistant_session.hpp:1152-1168 | A receive hands out one contiguous piece from the front of the ring, of at most the size asked, and nothing only when the ring is empty |
| `ByteRing.ReceiveKeepsRing` | src/ai/assistant_session.hpp:1152-1168 | While capacity and sizes asked are even, pieces are whole samples and the ring stays valid |
| `PlaybackRuns.FinishedMeansAllPlayed` | src/ai/assistant_session.hpp:1569-1586 | When finishing reports success all of the turn has been played: full silence blocks, then audio writes that together are exactly the bytes queued, and the ring is empty |
| `PlaybackRuns.CompleteMeansAllPlayed` | src/ai/assistant_session.hpp:957-1042 | So too in every state from the end of priming on in which the worker has completed and neither failed nor was stopped, such as after a finish that timed out |
| `PlaybackRuns.NothingLostWhilePlaying` | src/ai/assistant_session.hpp:957-1042 | At every point of every run no silence follows audio, and unless playback failed or was stopped what was queued is what was played, is in flight, and is in the ring, in that order |
| `PlaybackRuns.DiscardFindsNoPieceOut` | src/ai/assistant_session.hpp:1792-1827 | The final discard never runs while the worker holds a piece of the ring |
| `PlaybackRuns.ShortResponseCanFinish` | src/ai/assistant_session.hpp:957-1586 | Finishing does succeed: for any response that fits one write and does not fill the prebuffer there is a run that queues it, primes the output with silence, plays it and finishes |
| `PlaybackRuns.AnyResponseCanFinish` | src/ai/assistant_session.hpp:957-1586 | And for any response in any number of parts, the first of which fills the prebuffer, and any number of silence blocks, there is a run that primes the output with these, plays all of it and finishes |
| `PlaybackRuns.RunIsSound` | src/ai/assistant_session.hpp:957-1453 | Every interleaving of worker and network task keeps the playback invariant |
| `PlaybackTurns.BrokenForAReason` | src/ai/assistant_session.hpp:957-1586 | On every run a turn without a short write, a wait that took too long, an empty delta or response, or a worker left over from the turn before is never broken |
| `PlaybackTurns.BrokenExactly` | src/ai/assistant_session.hpp:1377-1453 | For each call, exactly when it breaks the turn |
| `PlaybackTurns.FinishedTurnIsPlayedOut` | src/ai/assistant_session.hpp:957-1586 | From every reachable state of such a turn in which the response has been finished, the worker plays out all of it and completes, and finishing succeeds |
| `PlaybackTurns.StopReturns` | src/ai/assistant_session.hpp:1808-1827 | A stop that was begun in any state comes to its end, with every flag, the ring and the start of the audio reset |
| `PlaybackTurns.RestBetweenTurns` | src/ai/assistant_session.hpp:1808-1827 | Between turns no flag but completion is set and the ring is empty |
| `PlaybackTurns.NewTurnBegins` | src/ai/assistant_session.hpp:871-912 | A new turn begins with all flags cleared but completion, and with nothing queued or written |
| `PlaybackTurns.RebuffersFully` | src/ai/assistant_session.hpp:980-1003 | A worker that ran out of audio plays on exactly when the prebuffer is full again or no more will come, and is done if there is nothing left |
| `PlaybackTurns.RunWaitsInPlace` | src/ai/assistant_session.hpp:957-1042 | In every state the wait flag agrees with where the worker stands |
| `PlaybackTurns.QueueWaitsThenFails` | src/ai/assistant_session.hpp:1377-1395 | A delta without room waits, and fails the turn once the wait is over |
| `PlaybackTurns.ShortWriteFails` | src/ai/assistant_session.hpp:969-1042 | A write that falls short fails the turn and ends the worker |
| `PlaybackTurns.StopIsTaken` | src/ai/assistant_session.hpp:1808-1827 | A stop is taken up wherever the turn is between calls |
| `PlaybackTurns.StopAbortsRunningWorker` | src/ai/assistant_session.hpp:1808-1822 | Only a worker that has not completed is aborted |
| `AssistantPlayback.WorkerKeeps` | src/ai/assistant_session.hpp:957-1042 | Each run of the worker from one blocking call to the next keeps the invariant |
| `AssistantPlayback.CallKeeps` | src/ai/assistant_session.hpp:1310-1453 | Each playback call of the turn, at its first shared access, keeps the invariant |
| `AssistantPlayback.NetGoesOnKeeps` | src/ai/assistant_session.hpp:1377-1453 | Each further shared access of queueing, starting, finishing and stopping keeps the invariant |
| `ResponseTurns.OutcomeIsDecidedByEvents` | src/ai/assistant_session.hpp:1216-1308 | A response completes exactly when, before a normal close, its events are one audio start, deltas and one audio done in order, all played, with a response-done anywhere; it is an empty sample exactly when an orderly prefix is closed as a policy violation |
| `ResponseTurns.AbortIsDecidedByEvents` | src/ai/assistant_session.hpp:1216-1308 | The reason of every abort, from the first bad event: a failed read, a fitting audio event that playback did not take or that ends a stream without audio, or anything else; and a timeout only if all events were orderly |
| `ResponseTurns.StepTracks` | src/ai/assistant_session.hpp:1231-1287 | The receive loop goes on after an event exactly if the events so far are still an orderly, played stream |
| `ResponseTurns.OverTells` | src/ai/assistant_session.hpp:1281-1303 | An ending event completes the turn exactly for a normal close after a full stream and a response-done |
| `ResponseTurns.Session.ReceiveResponse` | src/ai/assistant_session.hpp:1216-1308 | The receive loop leaves the flags and the abort reason of the specified outcome |
| `ResponseTurns.Session.ProcessTurn` | src/ai/assistant_session.hpp:915-937 | A processed turn adds one to exactly one of completed, empty and aborted, by its outcome |
| `ResponseTurns.Session.ProcessTurns` | src/ai/assistant_session.hpp:864-939 | After any turns the three counters add up to the number of turns and each counts its own outcome |
| `WebSocketModel.ReadsReassembleFrames` | src/ai/assistant_websocket.hpp:286-366 | However frames are split into reads, with idle reads and control frames in between, the client delivers the messages of the frames and stops exactly where and why the frames make it stop |
| `WebSocketModel.CallsAreTheirReads` | src/ai/assistant_websocket.hpp:286-305 | Wherever a receive call starts, returns or times out, the stream moves on by exactly the reads it took |
| `WebSocketModel.SessionIsItsReads` | src/ai/assistant_websocket.hpp:286-366 | However many receive calls there are and wherever each times out, the stream is the one of all the reads they took, none left out and none twice |
| `WebSocketModel.CallsReassembleFrames` | src/ai/assistant_websocket.hpp:286-366 | Calls that take all the reads, or stop for good, have delivered the messages of the frames, whatever the split into reads and into calls |
| `WebSocketModel.FrameDelivered` | src/ai/assistant_websocket.hpp:300-365 | Any split of one frame into reads, empty ones included, has the effect of the whole frame |
| `WebSocketModel.DeliversWholeMessages` | src/ai/assistant_websocket.hpp:347-365 | A frame delivers a message exactly when it is the final data frame, and the message is one TEXT frame and all its continuations, within the limit (RFC 6455 section 5.4) |
| `WebSocketModel.RefusedExactly` | src/ai/assistant_websocket.hpp:498-519 | A frame is refused exactly when it breaks the fragmentation rules, the control frame rules or the size limit (RFC 6455 sections 5.4 and 5.5) |
| `WebSocketModel.ReadRefusedExactly` | src/ai/assistant_websocket.hpp:286-545 | For one read of any kind, exactly what it is refused for, in the order of the checks |
| `WebSocketModel.NoFrameRead` | src/ai/assistant_websocket.hpp:286-330 | A failed read is reported as such, and a read that found no frame changes nothing |
| `WebSocketModel.DeliveryLeavesNothing` | src/ai/assistant_websocket.hpp:286-380 | A delivered message leaves nothing of it in the read state |
| `WebSocketModel.ConnectedUntilClosed` | src/ai/assistant_websocket.hpp:286-545 | Over any reads the client counts as connected until a close was received |
| `WebSocketModel.OpenMessage` | src/ai/assistant_websocket.hpp:498-519 | The message under way is the TEXT frame and the continuations since the last finished message |
| `WebSocketModel.StepFits` | src/ai/assistant_websocket.hpp:347-361 | The message buffer index never passes its limit and no delivered message is longer |
| `WebSocketModel.CloseCodeRightExactly` | src/ai/assistant_websocket.hpp:537-543 | The close status reported is the one sent if and only if the last read of the frame still begins with it |
| `WebSocketModel.SplitCloseLosesItsStatus` | src/ai/assistant_websocket.hpp:537-543 | A normal close read in two pieces is reported as having no status |
| `WebSockets.AssistantWebSocket.BeginFrame` | src/ai/assistant_websocket.hpp:498-519 | The frame check on the fields accepts what the specification accepts |
| `WebSockets.AssistantWebSocket.Take` | src/ai/assistant_websocket.hpp:330-361 | Copying a read into the message buffer in place is the specified step |
| `WebSockets.AssistantWebSocket.Receive` | src/ai/assistant_websocket.hpp:286-366 | One receive call over any reads gives the event, state and consumption of the specification |
| `WebSockets.AssistantWebSocket.Disconnect` | src/ai/assistant_websocket.hpp:654-660 | Disconnecting forgets any frame or message under way |
| `Downsamplers.Pcm16Downsampler.ReadBytes` | src/ai/pcm16_downsampler.hpp:75-109 | Whatever short reads and lengths occur, bytes given and a pending byte are the output of the finished pairs, bytes taken are eight per pair, four for a held sample and what the raw buffer holds, and a short result has used up all that was taken and met a source with nothing to give |
| `Downsamplers.ChunkingDoesNotMatter` | src/ai/pcm16_downsampler.hpp:75-109 | Two streams over the same source never contradict each other: the shorter output is a prefix of the longer |
| `Downsamplers.Pcm16Downsampler.GivenIsPrefixOfOutput` | src/ai/pcm16_downsampler.hpp:75-109 | What was given is a prefix of the output of what was taken |
| `Downsamplers.Pcm16Downsampler.ReadDownsampled` | src/ai/pcm16_downsampler.hpp:148-168 | A pair gives its averaged sample; a first half without a second is held and used later |
| `Downsamplers.Pcm16Downsampler.ReadSourceSample` | src/ai/pcm16_downsampler.hpp:170-188 | Each source sample is decoded once, from its own four bytes |
| `Downsamplers.Pcm16Downsampler.EnsureRawBytes` | src/ai/pcm16_downsampler.hpp:190-198 | The refill loop ends with enough bytes, or with fewer after a read that the source gave nothing for |
| `Downsamplers.Pcm16Downsampler.CompactRawBuffer` | src/ai/pcm16_downsampler.hpp:200-210 | Compaction keeps the unread bytes |
| `Downsamplers.Pcm16Downsampler.ReadMoreRaw` | src/ai/pcm16_downsampler.hpp:212-230 | A refill appends exactly the bytes the source gives up |
| `DownsamplerModel.OutputAt` | src/ai/pcm16_downsampler.hpp:148-168 | Each pair of source samples determines its own two output bytes, low byte first |
| `DownsamplerModel.OutputIsShiftedMean` | src/ai/pcm16_downsampler.hpp:148-200 | Where the source spells two 32-bit integers, least significant byte first, the output spells their mean without its fraction, shifted down and rounded down, or the closest 16-bit integer |
| `DownsamplerModel.ShiftedMeanIsUnique` | src/ai/pcm16_downsampler.hpp:148-200 | These conditions leave exactly one pair of output bytes |
| `DownsamplerModel.SampleIsSpelled` | src/ai/pcm16_downsampler.hpp:170-182 | Each 32-bit integer is what its four bytes are read as |
| `DownsamplerModel.OutputGrows` | src/ai/pcm16_downsampler.hpp:75-109 | More source bytes only add to the output |
| `DownsamplerModel.ClampIsIdle` | src/ai/pcm16_downsampler.hpp:232-238 | From a shift of 16 on, clamping never changes the average of two 32-bit samples |
| `DownsamplerModel.ClampIsNeededBelow` | src/ai/pcm16_downsampler.hpp:232-238 | For every smaller shift some pair of samples is clamped |
| `DownsamplerModel.BytesKeepTheSample` | src/ai/pcm16_downsampler.hpp:240-244 | The two bytes written for a sample read back as that sample |
| `MasterOrchestration.Orchestrator.PublishInitial` | src/master/orchestration.hpp:931-958 | The visuals start on the first layer with the first preset, and count as published exactly if all five publishes succeeded, each of which is tried |
| `MasterOrchestration.Orchestrator.CompleteFadeIfDue` | src/master/orchestration.hpp:960-978 | A due fade swaps the layers and moves to the next preset, cyclically; the presets visited stay in cyclic order |
| `MasterOrchestration.Orchestrator.StageNext` | src/master/orchestration.hpp:980-1010 | Staging succeeds exactly when its four publishes do, and then the sequencer fades to the next preset; otherwise its state is as before. The display has then taken all four commands exactly if the swap arrived, and else at most those that make the hidden layer ready |
| `MasterOrchestration.SteadyShows` | src/master/orchestration.hpp:931-1046 | While the visuals are published, a display shows the front layer of the sequencer alone, or is fading to it, with its preset on it, as long as no delivered swap was reported as failed, every staging met a finished fade, fades take time and the layer startup was not repeated |
| `MasterOrchestration.FrontExactly` | src/master/orchestration.hpp:980-1010 | Whatever a display shows when a staging reaches it, a fade under way included: the exact condition, on the opacity and the enable of its active layer just then, for it to head for the front layer of the sequencer afterwards; for each outcome of the publishes |
| `MasterOrchestration.LoseFirstSwap` | src/master/orchestration.hpp:996-998 | An input on which a display fades and the sequencer does not know it: the first swap is delivered and its publish fails |
| `MasterOrchestration.RepeatInTime` | src/master/orchestration.hpp:1028-1031 | The next pass stages again before any frame: the display goes on to the hidden layer, as the sequencer means if this report is right, and not as it means if that one is lost too |
| `MasterOrchestration.RepeatTooLate` | src/master/orchestration.hpp:1028-1031 | The next pass stages again after one frame: the display is stuck with the hidden layer out, although all was published |
| `MasterOrchestration.StageAgain` | src/master/orchestration.hpp:980-1010 | One more staging of such a display, again all published, leaves both layers out and the display stuck |
| `LayerScreens.StagingEnds` | include/LedDisplay/detail/AnimationEngine.hpp:587-663 | For any display and any staging that arrives: it fades to the hidden layer exactly if the active one is in full just then, returns to the active one exactly if that is disabled and not in full, and is stuck otherwise |
| `LayerScreens.RepeatedStagingEnds` | include/LedDisplay/detail/AnimationEngine.hpp:610-673 | A staging that meets a fade to its own hidden layer goes on there exactly if no frame has moved the fade, and else gets stuck |
| `LayerScreens.ReadyingEnds` | include/LedDisplay/detail/AnimationEngine.hpp:587-673 | A staging cut short before its swap leaves the active layer in front exactly if it was in full and enabled and the hidden one is out |
| `LayerScreens.EnablingEnds` | include/LedDisplay/detail/AnimationEngine.hpp:587-596 | Publishing both enables cancels a fade and leaves a layer in front exactly if it was in full, alone, and is enabled |
| `LayerScreens.StuckForGood` | include/LedDisplay/detail/AnimationEngine.hpp:610-643 | No frame, no command of a staging and no refresh gets a stuck display going |
| `LayerScreens.FramesKeep` | include/LedDisplay/detail/AnimationEngine.hpp:675-694 | Frames at any times never change where a display heads, nor what runs there; without a fade they change nothing |
| `LayerScreens.FadeEnds` | include/LedDisplay/detail/AnimationEngine.hpp:675-708 | A frame at or after the end of a fade leaves its layer in front, alone and in full |
| `LayerScreens.FadeGoesOn` | include/LedDisplay/detail/AnimationEngine.hpp:675-694 | Before its end a fade has given the new layer the part of full opacity that has passed, rounded to the nearest, and the other one the rest |
| `LayerScreens.SwapFadesFromShown` | include/LedDisplay/detail/AnimationEngine.hpp:610-663 | A swap fades away from the layer that is shown, whichever is named first, or is refused, in full detail |
| `MasterOrchestration.Orchestrator.HandleVisuals` | src/master/orchestration.hpp:1013-1046 | A pass succeeds exactly if what it has to publish does. It completes a fade that is due, so that the layers change places and the pending preset, the next in turn, is active; after the dwell time it stages, with its state kept on failure so that the next pass repeats it; and it keeps the layers apart, the display in step and a stuck display stuck |
| `MasterOrchestration.Orchestrator.GoOn` | src/master/orchestration.hpp:1023-1046 | For published visuals a pass does nothing during a fade, stages the next one when the dwell is over, and refreshes the active one when that is due |
| `MasterOrchestration.Orchestrator.RefreshIfDue` | src/master/orchestration.hpp:1034-1046 | A refresh plays the active preset again, at its interval, and changes nothing else |
| `Slideshows.SlideShow` | src/master/orchestration.hpp:1013-1046 | While all publishes arrive and passes come at least every so often, the presets become active in cyclic order, each after the one before was shown for its dwell and the fade took its time, at most two passes later; and none is overdue |
| `Slideshows.Pass` | src/master/orchestration.hpp:1013-1046 | Each single pass keeps such a show on time |
| `MasterOrchestration.Orchestrator.OnAnimationStop` | src/master/orchestration.hpp:1210-1233 | A stop of everything or of either visual suppresses the sequencer, and no other stop does |
| `MasterOrchestration.Orchestrator.HandleWheel` | src/master/orchestration.hpp:1459-1467 | Each turn adds to the offset modulo 2^16 and marks it dirty |
| `MasterOrchestration.Orchestrator.PublishWheelEffects` | src/master/orchestration.hpp:816-853 | Success means that exactly the enabled commands were published, in order, for the current wheel offset |
| `MasterOrchestration.Orchestrator.WorkTail` | src/master/orchestration.hpp:1910-1970 | The startup states, the visuals and the wheel in turn, each only if what comes before it succeeded: a due fade completes, the layer startup counts as done exactly if all of it was published, and the wheel is published once its interval has passed, clean meaning that the last offsets are those of the sum of all turns modulo 2^16 |
| `MasterOrchestration.Orchestrator.HandleMenus` | src/master/orchestration.hpp:1824-1834 | The first menu event that fails ends the pass, a fade under way is not disturbed, and without normal operation events are dropped |
| `MasterOrchestration.Orchestrator.PublishLayerStartup` | src/master/orchestration.hpp:771-795 | The startup state of all eight layers: each is tried, success means all succeeded, and then both visual layers have their configured enable and any fade is cancelled |
| `MasterOrchestration.Orchestrator.StartLayersIfDue` | src/master/orchestration.hpp:1910-1925 | The layer startup goes out once it is due and again until it succeeds, at its retry interval; the display and the sequencer stay in step in what was played, though the display may no longer show it |
| `MasterOrchestration.Orchestrator.Work` | src/master/orchestration.hpp:1809-1970 | Over any queued events a pass keeps all of this and handles every wheel turn, unless normal operation is on and a menu event or another handler ahead of the wheel fails; then it handles none and reports the failure |
| `LedBringupRuns.EnabledOnlyWhenAllReady` | src/gpu/led_startup.hpp:91-107 | Whatever messages are lost, repeated or delayed, an enabled gate means that both GPUs have begun and the master has seen both readiness bits |
| `LedBringupRuns.RunIsSound` | src/master/led_bringup.hpp:58-81 | Every run of both GPUs, the master, the network and the clock keeps the protocol invariant |
| `LedBringupRuns.NormalOperationExactly` | src/master/led_bringup.hpp:89-98 | Normal operation is allowed exactly when enable and boot animation were published and the time since, modulo 2^32 ms, has reached the animation lifetime |
| `LedBringupRuns.NormalOperationWaits` | src/master/led_bringup.hpp:162-164 | Normal operation is never allowed before the boot animation lifetime has really passed |
| `LedBringupRuns.NormalOperationLapses` | src/master/led_bringup.hpp:89-98 | Normal operation is withdrawn again when the 32-bit clock has gone round since the animation was published |
| `LedBringupRuns.DeliveryEnables` | src/master/led_bringup.hpp:166-172 | Once both GPUs have announced themselves, one delivery of each message enables an owned gate |
| `LedBoot.BootRunsThrough` | src/master/led_bringup.hpp:133-193 | A boot without failures runs through: the gate is enabled, each publish is made once and in order, and normal operation is allowed after the animation |
| `LedBoot.AnnouncesExactly` | src/gpu/led_startup.hpp:53-66 | A GPU announces itself at once and then whenever a second has passed modulo 2^32 ms, and the announcement is sent unless lost |
| `LedBoot.HoldAndBeginExactly` | src/gpu/led_startup.hpp:15-51 | Exactly when the gate counts as held, work as begun, and the gate as owned |
| `LedBoot.GateStandsAsCommanded` | src/gpu/led_startup.hpp:75-110 | Over every run the gate stands as the last accepted command says |
| `LedBoot.PassReportsExactly` | src/master/led_bringup.hpp:165-193 | A master pass succeeds exactly if every publish it tried did, and stops at the first failure |
| `LedBoot.AttemptsAreAnswered` | src/master/led_bringup.hpp:165-193 | Each publish of a pass is reported as it went |
| `LedBoot.EnableIsSentExactly` | src/master/led_bringup.hpp:165-171 | The enable command is tried exactly once both GPUs were heard and until it succeeds, and is on its way unless lost |
| `LedBoot.IndicatorExactly` | src/master/led_bringup.hpp:180-190 | Exactly when the wheel indicator is tried, in real time since the boot animation |
| `LedBringup.LedStartup.HoldOutputGateDisabled` | src/gpu/led_startup.hpp:15-23 | The gate is configured once, in the disabled state, and only if the pin could be set |
| `LedBringup.LedStartup.Begin` | src/gpu/led_startup.hpp:25-54 | Startup is refused twice, to an owner of an unheld gate, without a message service, and to an owner that cannot subscribe |
| `LedBringup.LedStartup.Work` | src/gpu/led_startup.hpp:56-69 | Readiness is announced at most once per interval, and only after startup |
| `LedBringup.LedStartup.OnEnableEnvelope` | src/gpu/led_startup.hpp:91-107 | Only an enable command from the master moves the gate |
| `LedBringup.MasterLedBringup.OnOutputReadyEnvelope` | src/master/led_bringup.hpp:58-81 | Only the two GPUs can set a readiness bit, each its own |
| `LedBringup.MasterLedBringup.Work` | src/master/led_bringup.hpp:166-199 | A pass tries enable, boot animation and wheel indicator in that order, each when its condition holds, and the first failure ends it |
| `LedBringupRuns.PublishedInOrder` | src/master/led_bringup.hpp:166-199 | Over any run the publishes are tried in that order, none is tried again once it has succeeded, and none before those ahead of it have |
| `JsonRoundTrip.RoundTrip` | tools/led-render/Json.hpp:56-274 | Parsing the compact form of any value, whatever text may follow it, gives back the value and stops at that text |
| `JsonRoundTrip.CharsRoundTrip` | tools/led-render/Json.hpp:377-402 | The parser undoes the string escaper on every string |
| `JsonRoundTrip.EscapedIsOneLine` | tools/led-render/Json.hpp:377-402 | Escaped text holds no line break and no tab |
| `JsonRoundTrip.NumberRoundTrip` | tools/led-render/Json.hpp:232-274 | Scanning a number token followed by anything that cannot continue it finds exactly the token |
| `JsonRoundTrip.DocumentRoundTrip` | tools/led-render/Json.hpp:56-68 | A whole document parses back to the value it was printed from |
| `JsonRoundTrip.PrintIsInjective` | tools/led-render/Json.hpp:56-68 | Different values have different compact forms |
| `JsonSyntax.AcceptedExactly` | tools/led-render/Json.hpp:56-68 | A text is accepted for a value if and only if it writes that value out as a tree of tokens: words, numbers, strings with each character plain or escaped, objects and arrays, with white space between |
| `JsonErrors.RefusalIsExplained` | tools/led-render/Json.hpp:56-295 | The error of every refused text is one its writing calls for: what is missing or wrong right behind a part that is written properly |
| `JsonNumerals.NumeralExactly` | tools/led-render/Json.hpp:232-274 | The number tokens are those of a sign, digits, a point with digits and an exponent, of which the digits on one side may be missing |
| `JsonSyntax.SpaceExactly` | tools/led-render/Json.hpp:276-281 | White space is the six characters it should be |
| `JsonSyntax.EscapesExactly` | tools/led-render/Json.hpp:176-206 | Each escape stands for its character, and no other is taken |
| `JsonSyntax.ValueAccepted` | tools/led-render/Json.hpp:71-274 | Every such writing of a value is accepted, for that value, and the parser stops where it ends |
| `JsonSyntax.ValueRead` | tools/led-render/Json.hpp:71-274 | Every accepted text is such a writing, followed by what the parser left |
| `JsonParsers.EscapeJson` | tools/led-render/Json.hpp:377-402 | The escaping loop computes the specified escape |
| `JsonParsers.Find` | tools/led-render/Json.hpp:39-49 | The lookup finds the first member of that name in an object, and nothing otherwise |
| `JsonParsers.JsonParser.ParseChars` | tools/led-render/Json.hpp:182-230 | The string loop gives the specified text or error and stops after the closing quote |
| `JsonParsers.JsonParser.ParseNumber` | tools/led-render/Json.hpp:232-274 | The number scan gives the specified token or error |
| `JsonParsers.JsonParser.ParseObject` | tools/led-render/Json.hpp:118-155 | The object loop gives the specified members or error and stops after the brace |
| `JsonParsers.JsonParser.ParseArray` | tools/led-render/Json.hpp:157-180 | The array loop gives the specified elements or error and stops after the bracket |
| `JsonParsers.JsonParser.ParseValue` | tools/led-render/Json.hpp:71-116 | The value dispatch gives the specified value or error and advances on success |
| `JsonParsers.JsonParser.Parse` | tools/led-render/Json.hpp:56-68 | The parser accepts exactly the specified documents and rejects trailing content |
| `LedRender.MetadataJson` | tools/led-render/host_render.cpp:491-548 | The metadata writer prints exactly the compact form of the metadata value |
| `LedRender.MetadataRoundTrip` | tools/led-render/host_render.cpp:491-548 | Parsing the metadata of any request, path and animations succeeds and gives back every member |
| `LedRender.RequestIsFoundByName` | tools/led-render/host_render.cpp:489-548 | Each part of a request is found under its own name in the metadata |
| `LedRender.PartsAreFoundByName` | tools/led-render/host_render.cpp:510-543 | So is each part of an animation, with the name of its layer, and of the geometry |
| `LedRender.MetadataDetermines` | tools/led-render/host_render.cpp:491-548 | The metadata text determines the request, the path and every animation: no number, name or source text is confused with another |
| `LedRender.ParseUint32` | tools/led-render/host_render.cpp:67-83 | A text is accepted exactly when it is one or more digits of a value below 2^32, which is then the result |
| `LedRender.ParsePrinted` | tools/led-render/host_render.cpp:67-83 | A printed 32-bit number parses back to itself |
| `LedRender.ParseFrames` | tools/led-render/host_render.cpp:85-99 | A frame range is accepted exactly when it is two such numbers, in order, around a colon |
| `LatencyModel.PercentileBrackets` | include/Setups/PubSubStarTest.hpp:150-171 | A percentile is the first bucket bound that is not below the nearest-rank sample, or the maximum if all bounds are below it |
| `LatencyModel.PercentileGrows` | include/Setups/PubSubStarTest.hpp:150-169 | Percentiles grow with p, also from the last bound into the maximum |
| `LatencyModel.NearestRankExists` | include/Setups/PubSubStarTest.hpp:150-159 | Every rank up to the number of samples has its nearest-rank sample |
| `LatencyModel.RankGrows` | include/Setups/PubSubStarTest.hpp:155-159 | Up to 100 percent the 32-bit rank is the hundredth of samples times p rounded up, is some sample's rank, and grows with p |
| `LatencyModel.SumIsCount` | include/Setups/PubSubStarTest.hpp:126-133 | The buckets up to a bound hold exactly the samples that do not exceed it, and all buckets hold all samples |
| `LatencyModel.MaxIsBeyond` | include/Setups/PubSubStarTest.hpp:161-168 | The fall-through to the maximum happens only when that lies above every bound |
| `LatencyStats.LatencyStats.RecordLatency` | include/Setups/PubSubStarTest.hpp:104-134 | Every record counts as a valid sample or an invalid one, and counters, extremes, total and buckets stay those of the samples recorded |
| `LatencyStats.LatencyStats.CountInBucket` | include/Setups/PubSubStarTest.hpp:126-133 | The bucket loop counts the sample in the bucket of its range and no other |
| `LatencyStats.LatencyStats.AverageLatencyUs` | include/Setups/PubSubStarTest.hpp:136-140 | The average is the true one rounded down, and zero for no samples |
| `LatencyStats.LatencyStats.PercentileUs` | include/Setups/PubSubStarTest.hpp:150-169 | The cumulative loop computes the specified percentile |
| `CheckedMath.SafeOperationsAreExact` | include/Support/Math.hpp:129-167 | For every admitted pair of types and all their values, each safe operation gives the exact result in the type in which they meet, without its fraction for division, or none when it leaves that type or the divisor is zero |
| `CheckedMath.TypesMeet` | include/Support/Math.hpp:14-36 | The type in which two types meet: the signed one of different signs, int for narrow ones, and else one as wide as the wider |
| `CheckedMath.TruncDivIsQuotient` | include/Support/Math.hpp:160-167 | Division is by the quotient whose remainder has the sign of the dividend |
| `CheckedMath.ConversionIsLossless` | include/Support/Math.hpp:14-36 | No operand of an admitted pair of types changes value in the result type |
| `CheckedMath.AddExactly` | include/Support/Math.hpp:38-57 | Addition is refused exactly when the sum leaves the result type, and the check itself stays inside it |
| `CheckedMath.SubExactly` | include/Support/Math.hpp:59-79 | Subtraction is refused exactly when the difference leaves the result type, and the check itself stays inside it |
| `CheckedMath.MulExactly` | include/Support/Math.hpp:81-108 | Multiplication is refused exactly when the product leaves the result type |
| `CheckedMath.MulChecksFit` | include/Support/Math.hpp:81-108 | Every quotient that the multiplication check computes fits the result type |
| `CheckedMath.DivExactly` | include/Support/Math.hpp:110-127 | Division is refused exactly for a zero divisor or a quotient that leaves the result type |
| `Wire.EncodeReadsBack` | generate/wire.py:668-731 | An encoding has the size of its model and its integers, after coercion and defaults, read back from its bytes |
| `WireSyntax.EncodesExactly` | generate/wire.py:590-731 | The encoder succeeds exactly on the values that have bytes, and gives them: each field takes the last value that the caller names for it and else its default, each number fits its width and sign, arrays have their length; said without the encoder |
| `WireSyntax.EncodingRaises` | generate/wire.py:590-731 | The error of any other value is that of the first field or item without bytes, of the kind that its defect calls for |
| `WireSyntax.DefaultExactly` | generate/wire.py:627-666 | The default of each kind: false, zero, the first enumerator, an array of defaults, the defaults of all fields |
| `WireSyntax.DefaultIsNothingGiven` | generate/wire.py:627-674 | A model is written from its default as from an empty dictionary |
| `WireSyntax.HoldsExactly` | generate/wire.py:606-617 | An integer has bytes of a width and sign exactly if it fits, and only its own |
| `Wire.EncodingLengthIsFixed` | generate/wire.py:668-731 | All values that a model encodes take the same number of bytes |
| `Wire.EncodingDeterminesIntegers` | generate/wire.py:668-731 | Two values with the same encoding hold the same integers after defaults |
| `Wire.IntRoundTrip` | generate/wire.py:606-617 | Every integer in the range of its width and signedness reads back from its little-endian bytes |

## Left out

- ArenaRuns.RunKeeps: runs with empty payloads are excluded, because the code does not keep its table then; the exact condition is `ArenaRuns.StoreKeepsIffNonEmpty`.
- ArenaRuns.RunReadsLastStored: the same exclusion of empty payloads.
- ByteArenas.ByteArena.GetRaw: the requested bytes have to lie within the buffer, since the code copies without a bounds check.
- UploadRuns.CommitUploadsWhatWasHeard: ending a capture is one step, so that a state write of its last line cannot come after the cleanup of the same turn, and emptying the ring is one step, so that a frame sent meanwhile is sent before or after it; the ring is modelled by its contract, as a circular queue of bytes that hands out one contiguous piece at a time; there is one front-end thread.
- CaptureRuns.JudgedFrameDecides: whether a frame is past a time limit comes with the frame; the subtraction of its timestamp is not modelled.
- PlaybackRuns.FinishedMeansAllPlayed: the network task does not run between the worker's blocking calls, the flags of a new turn are reset and the ring is emptied in one step each, and stopping waits for the worker without a time limit; without the first, the worker's empty check could miss data queued just before the end was announced. Bytes are those handed to the write, before boundary muting and gain.
- WebSocketModel.ReadsReassembleFrames: replies to pings and closes are assumed to be sent; a reply that fails ends the connection with an error in `WebSocketModel.Step`. The contents of echoed control frames are not modelled.
- LatencyModel.PercentileGrows: at most 100 percent and fewer than 2^32 samples, so that the 32-bit rank and buckets do not wrap.
- LatencyStats.LatencyStats.PercentileUs: fewer than 2^32 valid samples.
- LatencyStats.LatencyStats.AverageLatencyUs: fewer than 2^32 valid samples.
- SlottedRuns.RunRefinesMap: keys and entries are values, so a key that is moved with its slot stays the same key, and moving it cannot fail.
- LedRender.MetadataRoundTrip: numbers come back as their decimal tokens; their conversion to doubles is not modelled beyond being finite.
- MasterOrchestration.FrontExactly: a publish that is reported as successful has arrived, once, and what arrives comes in order; each display is taken by itself. Not modelled: commands to its layers from elsewhere, such as an animation stop, and a display with all its animation slots taken.
- MasterOrchestration.Orchestrator.Work: the dial, beat, spectrum, peak, button and battery handlers, the rest of the menu handler and the publish of the other LEDs' startup state appear only as whether they succeeded; their own publishes are not on the modelled bus, and they leave the two visual layers alone.
- Wire.EncodeReadsBack: model names are resolved into descriptor trees, so a cyclic set of models has no counterpart.
- Mutex acquisition, logging, metrics, status LED and animation command building: effects without state of the cores.
- TLS, the transport, JSON parsing of server events, base64, time synchronisation, Wi-Fi, I2S and GPIO: foreign calls, present only as their outcomes.
- `BaseDirectory::withAll` and the mutable iteration of `SlottedMap`: they run caller code on entries.
- `safe_pct`: its cast truncates above 255, and below that it is a multiplication and a division already covered.
- The playback resampler, angle conversions, renderers and the tools' wave generators: floating point or drawing.
- The publish-subscribe node, its transports and wire layers: only their facades are in the sources modelled here.
- Reading typed fields out of JSON values and render requests: conversions of doubles.
