# Verified model of adk-aerospike's storage engines

The three services of adk-aerospike are client-side protocols over single-record
operations of an Aerospike server. This project models them in Dafny and proves what they
guarantee. `dafny verify dfyconfig.toml` checks everything.

## What is modelled

**The store.** An operation on one record is atomic. A map put is refused, with no effect,
exactly when the record would then exceed the size limit; the size of a record is the sum
of positive entry sizes over distinct keys, so putting a key that is already there always
fits. A guarded increment acts or reports that its guard failed. A write that timed out may
take effect at once, at any later moment, or never.

**The segment log** (`sessions/service.py`), twice.

- `LogProtocol` is a step relation: any number of append calls in any number of processes,
  each with its program counter, a cached segment index per process that may be stale,
  retries after back-pressure and after ambiguous timeouts, writes that are still under way,
  and full reads whose segment reads interleave with all of this. `LogInvariant` holds the
  inductive invariant, `LogTheorems` what follows over whole runs, and `LogProgress` that
  appends come to an end, and how.
- `SessionService.Service` is the service as a class: stored records, the index cache, and
  the loops of create, append, get and delete. `Segments`, `SegmentLog` and `ScopedState`
  specify its parts, `SegmentGaps` what rejected events leave behind and `SegmentOrder` what late
  events do; `SessionWorld` and `SessionOrder` relate whole runs of operations to a plain list
  of events and a plain dict of state per session. A
  ghost field of the class records its operations, and as long as the process is alone its
  reads are those of that run.

**The inverted index** (`memory/service.py`). `MemoryIndex` describes every operation as the
program of single-record writes it issues; a crash cuts a program anywhere. `MemoryAgreement`
and `MemoryRuns` prove soundness at every cut and agreement after every call, `MemoryHistory`
agreement over histories of calls and crashes, and recovery; `MemoryRepeats` treats repeated
event ids; `MemorySearch` compares search with a scan of all rows; `Tokens` is the tokenizer;
`MemoryContents` says all this in terms of events and the words of their texts, and
`MemoryService.Service` is the service as a class whose loops issue exactly those programs.

**The artifact versions** (`artifacts/service.py`). `ArtifactProtocol` is a step relation over
interleaved saves, abandoned puts that may land late, deletes and crashes;
`ArtifactService.Service` is the service as a class against a list of versions per artifact.

**Keys.** `EventKeys` and `RecordKeys` are the string encodings the three engines rely on,
over the string lemmas of `Text`. The engines use ids instead of strings for record keys; the
injectivity theorems of `RecordKeys` are what justifies that.

## Conditions

The code is not correct without these, so they are explicit in the theorems.

- `LogProtocol` is one incarnation of a session, and each event key belongs to one append call.
- Event times are natural numbers of microseconds; an event without a time takes the clock,
  as `append_event` does. Order by key is order by time below 10^20 only
  (`EventKeys.BeyondTwentyDigitsOrderBreaks`).
- Two things put matches out of reach of a read with a cutoff, which stops at the first segment
  without a match. A rejected event leaves an empty segment: `SessionWorld.ReadIsExactIff` says
  when such reads are right, over all runs with increasing keys, and `SessionWorld.GapOf`
  computes from the operations alone how many of the oldest events are hidden. A late event, of a
  key before the cutoff, can open a new segment (`SegmentOrder.LateEventHidesMatch`):
  `SessionOrder.FirstWrongCutoffRead` has the condition on each append that keeps the reads
  right, over all runs, late and rejected events included.
- The history is the list in the order of the appends as long as each event opens a segment or
  comes after all keys of the last one (`SessionOrder.FirstOutOfOrder`). With new keys in any
  order it still holds each event once (`SessionOrder.LogConservesList`).
- An append whose event is rejected for its size still stores its state delta on the batch path
  (`SessionWorld.ViewRefinesDict` counts it in).
- A caller that appends an event again may store a second copy: an append looks only into the
  segment it targets and, when that one is full and passed, into the last
  (`SegmentLog.AppendIsNoOpIff`).
- App, user and session ids contain no colon, and sessions avoid the reserved ids "sl"
  (sessions) and "kw" (memory); `RecordKeys` has collisions for a colon in an app or session id
  and for the reserved ids.
- The memory index needs non-empty event ids. Within a session that is added they should be
  distinct; `MemoryRepeats.AddSessionSoundIff` has the exact condition on repeated ones. Full
  agreement needs lists that are not trimmed, for which 2048 searchable events per user is a
  safe bound (`MemoryHistory.FewEventsNeverTrim`); an insert that trims always breaks it
  (`MemoryAgreement.InsertAgreesIff`).
- A delete of an artifact runs while no save of it is under way.

`_internal/keys.py` says that a session named "user" would collide with user-scoped artifacts.
The row keys do not collide: a user-scoped filename starts with "user:" and is part of the
key, and no other file in that slot has such a name (`RecordKeys.ArtifactSlots`). Only the
scope tuple of the secondary index is shared.

## Model

| member | source | states |
|---|---|---|
| EventKeys.EventKeyFormat | src/adk_aerospike/_internal/codec.py:69-82 | a key of a time below 10^20 is twenty digits of its value, a colon and the id |
| RecordKeys.KeyFormats | src/adk_aerospike/_internal/keys.py:56-140 | every record key and the scope tuple as they are stored |
| Text.PaddedExamples | src/adk_aerospike/_internal/codec.py:69-82 | zero-padded decimals, shorter and longer than their width |
| Text.LessMeaning | src/adk_aerospike/sessions/service.py:571-574 | keys of a segment are ordered by their first difference, a proper prefix first |
| EventKeys.PrefixParsesBack | src/adk_aerospike/_internal/codec.py:69-88 | the microseconds parse back from any event key |
| EventKeys.EventKeyInjective | src/adk_aerospike/_internal/codec.py:69-82 | two keys are equal iff times and ids are, also for ids with colons |
| EventKeys.EventKeyOrder | src/adk_aerospike/_internal/codec.py:69-82 | below 10^20 microseconds, string order of keys is lexicographic order on (time, id) |
| EventKeys.BeyondTwentyDigitsOrderBreaks | src/adk_aerospike/_internal/codec.py:69-82 | every time of more than twenty digits sorts below the latest time of twenty digits |
| EventKeys.CutoffSelects | src/adk_aerospike/sessions/service.py:826-836 | the key range [cutoff + ":", ":") selects exactly the events at or after the cutoff |
| RecordKeys.SessionSetKeysInjective | src/adk_aerospike/_internal/keys.py:56-66 | session, segment and manifest records of plain ids never share a key |
| RecordKeys.ManifestCollision | src/adk_aerospike/_internal/keys.py:118-120 | a session id collides with the manifest iff it is the reserved one |
| RecordKeys.ColonInSessionIdCollides | src/adk_aerospike/_internal/keys.py:60-66 | a session key equals a segment key iff the id spells out that segment, which takes a colon |
| RecordKeys.UserStateKeysInjective | src/adk_aerospike/_internal/keys.py:73-74 | user-state records of apps without a colon are one per app and user |
| RecordKeys.ColonInAppCollides | src/adk_aerospike/_internal/keys.py:73-74 | with a colon in the app id two different users share a record |
| RecordKeys.MemorySetKeysInjective | src/adk_aerospike/_internal/keys.py:114-125 | memory rows and posting lists of plain ids never share a key |
| RecordKeys.PostingCollision | src/adk_aerospike/_internal/keys.py:123-125 | a memory row collides with a posting list iff its session has the reserved id and its event id is the token |
| RecordKeys.ArtifactSetKeysInjective | src/adk_aerospike/_internal/keys.py:77-98 | artifact rows and heads never share a key, for any filename and any number of version digits |
| RecordKeys.ArtifactSlots | src/adk_aerospike/_internal/keys.py:101-111 | two saves address one row iff they mean the same version of the same artifact, shared across sessions exactly for user-scoped names |
| RecordKeys.ScopeTupleInjective | src/adk_aerospike/_internal/keys.py:128-140 | the indexed scope tuple identifies app, user and scope |
| LogInvariant.StepKeeps | src/adk_aerospike/sessions/service.py:548-760 | every atomic step of any writer, reader or late write keeps the invariant |
| LogInvariant.RefusalIsPermanent | src/adk_aerospike/sessions/service.py:696-711 | an event once refused by a segment is refused by it in every later state |
| LogInvariant.OwnKeyFits | src/adk_aerospike/sessions/service.py:520-546 | a retry that finds its own key present is always accepted |
| LogTheorems.AtMostOneSegment | src/adk_aerospike/sessions/service.py:548-760 | over all interleavings and times an event is in at most one segment |
| LogTheorems.ReturnedAppendIsStored | src/adk_aerospike/sessions/service.py:548-711 | an append that returned left its event in exactly one segment, from then on |
| LogTheorems.ReadMissesNothing | src/adk_aerospike/sessions/service.py:251-264 | a full read that starts after an append returned holds its event exactly once, and nothing twice |
| LogTheorems.NothingAboveCur | src/adk_aerospike/sessions/service.py:403-424 | no cached index and no index that a call holds exceeds the current one, and no segment above it holds anything |
| LogTheorems.DeleteReclaimsEverything | src/adk_aerospike/sessions/service.py:317-348 | removing segments 0 to cur + 1 leaves no event, from every reachable state |
| LogTheorems.BumpHappens | src/adk_aerospike/sessions/service.py:725-760 | each index below the current one was left by an increment of one |
| LogTheorems.RolloversConverge | src/adk_aerospike/sessions/service.py:725-760 | each index is left only once, however many increments were sent, retried or landed late |
| LogTheorems.RolloverReturnsNewerIndex | src/adk_aerospike/sessions/service.py:725-760 | a rollover that returns gives an index above the one it left, and not ahead of the current one |
| LogTheorems.BumpFollowsRefusal | src/adk_aerospike/sessions/service.py:725-760 | every increment from n was preceded by a put that segment n refused |
| LogTheorems.AttemptsClimb | src/adk_aerospike/sessions/service.py:696-711 | successive attempts of a call target strictly increasing segments |
| LogTheorems.SealedSegmentsAreFull | src/adk_aerospike/sessions/service.py:696-711 | a segment that was rolled over holds at least cap - M + 1 bytes if no event exceeds M |
| LogTheorems.PackingBound | src/adk_aerospike/sessions/service.py:725-760 | hence cur * (cap - M + 1) is at most the bytes stored |
| LogTheorems.OnlyOversizedEventsAreRejected | src/adk_aerospike/sessions/service.py:704-723 | only an event that fits no empty segment is rejected for its size, despite the racing size read, and it is stored nowhere |
| LogTheorems.NotConvergedTakes63Rollovers | src/adk_aerospike/sessions/service.py:696-711 | the 64-attempt failure needs at least 63 rollovers during the call |
| LogTheorems.LoneWriterTriesThreeSegments | src/adk_aerospike/sessions/service.py:675-711 | with no other writer a storable event is tried in at most three segments, also from a stale cache |
| LogProgress.NeverStuck | src/adk_aerospike/sessions/service.py:548-760 | until an append returned or failed some step of its own is possible that is no error |
| LogProgress.FailureHasCause | src/adk_aerospike/sessions/service.py:520-546 | an append fails on an error only if it was interrupted, and on back-pressure only after eleven setbacks |
| LogProgress.EveryCallEnds | src/adk_aerospike/sessions/service.py:548-760 | in every run, whatever the other writers do, an append takes at most 2600 steps, setbacks included |
| LogProgress.LoneAppendCompletes | src/adk_aerospike/sessions/service.py:675-723 | with no other writer, no interruption and at most ten setbacks, an event that fits is stored in exactly one segment after at most nineteen steps of its append, and one that does not fit is reported as too big |
| LogProgress.FirstTarget | src/adk_aerospike/sessions/service.py:403-424 | an append targets the cached index first, and without one the index it reads and caches |
| LogProgress.RolloverReadsCur | src/adk_aerospike/sessions/service.py:745-760 | a rollover ends at the current index |
| LogProgress.ReadAdvances | src/adk_aerospike/sessions/service.py:791-807 | a read caches the index it found and adds one segment a step until none is left |
| LogProgress.ReturnFillsCache | src/adk_aerospike/sessions/service.py:709-710 | an append that returns leaves its segment in the cache |
| LogProgress.RefusedBatchRollsOver | src/adk_aerospike/sessions/service.py:635-640 | a refused batch goes on to the rollover, a refused put to the size check |
| LogProgress.TimedOutWritesMayLand | src/adk_aerospike/sessions/service.py:520-546 | a write that timed out can still land with its whole effect |
| LogProgress.OtherErrors | src/adk_aerospike/sessions/service.py:520-546 | a write pushed back has no effect, and an interrupted one can still land |
| Segments.PutKeepsOrder | src/adk_aerospike/sessions/service.py:558-579 | a put keeps a segment sorted by key |
| SegmentLog.AppendFailsOnlyWhenOversized | src/adk_aerospike/sessions/service.py:675-711 | an append from any index, on either path, stores the event iff it fits a record |
| SegmentLog.AppendConserves | src/adk_aerospike/sessions/service.py:548-711 | an append of a new key adds its entry once or changes nothing, for arbitrary segment contents |
| SegmentLog.PlaceKeepsWellFormed | src/adk_aerospike/sessions/service.py:675-711 | placing keeps every segment sorted and within the size limit |
| SegmentLog.AppendIsNoOpIff | src/adk_aerospike/sessions/service.py:548-711 | appending a storable event changes nothing iff it is in the targeted segment, or that one is full and passed and it is in the last; from any index, on either path |
| SegmentLog.ReappendIsIdempotent | src/adk_aerospike/sessions/service.py:548-711 | in particular, appending again at once from the index where the first append ended changes nothing, for arbitrary contents |
| SegmentLog.AppendElseAddsCopy | src/adk_aerospike/sessions/service.py:548-711 | otherwise it adds one copy, whatever older segments hold |
| SegmentLog.ReappendAfterRolloverDuplicates | src/adk_aerospike/sessions/service.py:696-711 | from the empty log: an event, then one that does not fit beside it, then the first again, leaves two copies; for all such events |
| SegmentLog.AppendFromCur | src/adk_aerospike/sessions/service.py:675-760 | all an append from the current index can do to the log; it ends at the current index |
| SegmentLog.AppendExtendsHistory | src/adk_aerospike/sessions/service.py:548-711 | an up-to-date writer with increasing keys extends one ordered list at its end, in the last segment or a new one |
| SegmentLog.AnswerWithoutCutoff | src/adk_aerospike/sessions/service.py:762-807 | without a cutoff the walk returns the last N of all segments in order, for arbitrary contents |
| SegmentLog.AnswerWhenMatchesAreRecent | src/adk_aerospike/sessions/service.py:762-807 | for arbitrary contents: if a segment without a match has none below it, the walk is a query of all segments in order |
| SegmentLog.EmptyTopIsExactIff | src/adk_aerospike/sessions/service.py:803-804 | over an empty top segment a read with a cutoff is right iff nothing matches or none was asked for |
| SegmentGaps.RejectionHidesMatchesIff | src/adk_aerospike/sessions/service.py:704-711 | after one append to a log in use a read with a cutoff and no count is right iff the event fitted or nothing matches |
| SegmentGaps.RejectedBatchLeavesGap | src/adk_aerospike/sessions/service.py:632-640 | after a rejected batch append over an empty segment the next event goes above it, and a read with a cutoff sees only that event |
| SegmentGaps.AppendKeepsGapped | src/adk_aerospike/sessions/service.py:548-711 | every append, stored or rejected, changes the gaps of a log as computed from its size and path alone |
| SegmentGaps.AnswerOfGappedLog | src/adk_aerospike/sessions/service.py:762-807 | a read is a query of exactly the events that the gaps leave in reach |
| SegmentGaps.ReachableIsExactIff | src/adk_aerospike/sessions/service.py:803-804 | that is the query of all events iff there is no cutoff, nothing hidden, the newest hidden event is before the cutoff, or no more are asked for than are in reach |
| SegmentOrder.OrderKeptIff | src/adk_aerospike/sessions/service.py:675-711 | an append keeps the log in key order iff its event comes after everything below the segment that takes it |
| SegmentOrder.AppendsAtEndIff | src/adk_aerospike/sessions/service.py:675-711 | an append adds its event at the end of the history iff it opens a segment or comes after all keys of the last |
| SegmentOrder.CutoffReadStaysExactIff | src/adk_aerospike/sessions/service.py:803-804 | for one append, late, early or rejected: a read with a cutoff stays right iff the last segment took the event, or it is stored and matches, or nothing matched before |
| SegmentOrder.TidyIsRecent | src/adk_aerospike/sessions/service.py:803-804 | a log in key order without gaps meets the premise of that for every cutoff |
| SegmentOrder.LateEventHidesMatch | src/adk_aerospike/sessions/service.py:803-804 | without any rejection: an event at or after the cutoff fills a segment, a smaller key opens the next, and the read returns nothing |
| SegmentOrder.AnswerIsPart | src/adk_aerospike/sessions/service.py:762-807 | for any log a read returns stored matches, none more often than it is stored |
| SegmentLog.TidyHidesNothing | src/adk_aerospike/sessions/service.py:803-804 | in an ordered log without empty segments the early stop hides nothing |
| SegmentLog.AnswerOfTidyLog | src/adk_aerospike/sessions/service.py:762-848 | there the walk is a query of the plain list |
| SegmentLog.MatchingIsSince | src/adk_aerospike/sessions/service.py:826-836 | the key range is the comparison of times |
| ScopedState.MergeAfterPartition | src/adk_aerospike/sessions/service.py:946-987 | writing any of the three parts of a delta and merging equals updating the merged dict with the keys in scope, never the temporary ones |
| ScopedState.PartitionRoundTrip | src/adk_aerospike/sessions/service.py:946-987 | merging the parts of a dict gives the dict without its temporary keys |
| ScopedState.PartitionState | src/adk_aerospike/sessions/service.py:967-987 | the loop computes the three parts |
| ScopedState.MergeState | src/adk_aerospike/sessions/service.py:946-964 | the loops compute the merged dict |
| SessionWorld.ViewRefinesDict | src/adk_aerospike/sessions/service.py:581-617 | over any run by many apps, users and sessions each view is the fold of exactly the writes in scope |
| SessionWorld.WhoSees | src/adk_aerospike/sessions/service.py:946-987 | after any run an append changes the view of exactly those who see the key: an "app:" key the users of the app, a "user:" key the user, a bare one the session, a "temp:" one nobody |
| SessionWorld.BatchIffStored | src/adk_aerospike/sessions/service.py:581-583 | a delta takes the batch path iff some key of it is not temporary |
| SessionWorld.LastUpdateIsUpdatedAt | src/adk_aerospike/sessions/service.py:585-597 | the stored time is that of the create or of the last append with a key of the session |
| SessionWorld.LogRefinesList | src/adk_aerospike/sessions/service.py:548-711 | over any run with increasing stored keys, rejected events included, each log holds exactly the list of its stored events, with exactly the gaps computed from the operations |
| SessionWorld.ReadOfRun | src/adk_aerospike/sessions/service.py:228-281 | after any such run a read is a query of the list less what its gaps hide from a cutoff |
| SessionWorld.UnfilteredReadIsExact | src/adk_aerospike/sessions/service.py:228-281 | with increasing keys a read without a cutoff is the list or its last N, also after rejected events |
| SessionWorld.ReadIsExactIff | src/adk_aerospike/sessions/service.py:228-281 | with increasing keys a read with a cutoff is the query of the list iff nothing is hidden, the newest hidden event is before the cutoff, or no more are asked for than are in reach |
| SessionWorld.CutoffReadIsExactIff | src/adk_aerospike/sessions/service.py:826-836 | the same in times of up to twenty digits |
| SessionWorld.GapsAreForGood | src/adk_aerospike/sessions/service.py:803-804 | events hidden by a gap stay hidden until the session is deleted |
| SessionWorld.ReadRefinesQuery | src/adk_aerospike/sessions/service.py:228-281 | so with increasing keys and no rejected events a read returns the list, its last N, its part from the cutoff, or the last N of that part |
| SessionWorld.ReadRefinesTimeQuery | src/adk_aerospike/sessions/service.py:826-836 | where the part from the cutoff is a comparison of times |
| SessionOrder.LogConservesList | src/adk_aerospike/sessions/service.py:548-711 | over any run whose stored keys are new, in any order, each log holds each event of its list once and no other |
| SessionOrder.ReadConservesList | src/adk_aerospike/sessions/service.py:228-281 | in such a run no read invents or doubles an event, and a read without a cutoff loses none |
| SessionOrder.LastOfReadIsNewest | src/adk_aerospike/sessions/service.py:266-272 | with increasing keys and real times the last event of a read is its newest |
| SessionOrder.FirstOutOfOrder | src/adk_aerospike/sessions/service.py:675-711 | over any run the history is the list, in the order of the appends, up to the first append that does not go to the end, and not right after it |
| SessionOrder.FirstWrongCutoffRead | src/adk_aerospike/sessions/service.py:803-804 | over any run, late and rejected events included, reads with a cutoff are right up to the first append that does not leave the matches in reach, and wrong right after it |
| SessionOrder.OrderlyIsFresh | src/adk_aerospike/sessions/service.py:548-711 | runs with increasing keys are among the runs with new keys |
| SessionService.AppendTracks | src/adk_aerospike/sessions/service.py:350-424 | an append from an up-to-date cache goes to the last segment and leaves the cache up to date |
| SessionService.Service.CreateSession | src/adk_aerospike/sessions/service.py:165-226 | creates with the three parts of the state, or changes nothing if the session exists; keeps a process that is alone on the run of its operations |
| SessionService.Service.CurrentSegment | src/adk_aerospike/sessions/service.py:403-424 | the cached index, else the stored one, else 0 for a missing record; never ahead of the stored one |
| SessionService.Service.RollOver | src/adk_aerospike/sessions/service.py:725-760 | opens an empty segment iff the index is still the given one, and caches the result |
| SessionService.Service.PlaceLoop | src/adk_aerospike/sessions/service.py:696-711 | the loop places the event as specified and never runs out of attempts |
| SessionService.Service.AppendBatch | src/adk_aerospike/sessions/service.py:599-640 | the batch path stores the state in every case and the event by rolling over first |
| SessionService.Service.AppendEvent | src/adk_aerospike/sessions/service.py:350-381 | the whole new contents after an append from the cached index, and its outcome; a process that is alone stays on the run of its operations |
| SessionService.AppendAssembles | src/adk_aerospike/sessions/service.py:548-640 | log, state and scoped writes together are the specified append |
| SessionService.Service.CollectEntries | src/adk_aerospike/sessions/service.py:791-802 | the inner loop takes entries newest first until there are enough |
| SessionService.Service.LoadEvents | src/adk_aerospike/sessions/service.py:762-807 | the walk returns the specified answer for arbitrary contents |
| SessionService.Service.GetSession | src/adk_aerospike/sessions/service.py:228-281 | the merged state and the answer, from any cache; for a process that was alone, the dict of its run, the read that the run prescribes when keys increased, in any order of new keys no event invented, doubled or, without a cutoff, lost; and as its time that of the newest event returned, or without events that of the last write of the session |
| SessionService.DeleteCoversAll | src/adk_aerospike/sessions/service.py:317-348 | removing segments 0 to cur + 1 removes every segment of the session and no other |
| SessionService.Service.DeleteSession | src/adk_aerospike/sessions/service.py:317-348 | the session and all its segments are gone, everything else stays; keeps a process that is alone on the run of its operations |
| Tokens.TokenizeMeaning | src/adk_aerospike/memory/service.py:410-420 | the tokens are exactly the lowercase maximal runs of letters that are no stopwords, each once |
| Tokens.TokensAreLowercase | src/adk_aerospike/memory/service.py:48 | tokens are non-empty and of the letters a to z |
| Tokens.CaseDoesNotMatter | src/adk_aerospike/memory/service.py:410-420 | texts that differ only in case have the same tokens |
| Tokens.SharedTokenIff | src/adk_aerospike/memory/service.py:410-420 | two texts have a token in common iff they share a word, in any case, that is not one of the common ones |
| Tokens.EventTokens | src/adk_aerospike/_internal/codec.py:91-95 | the tokens of an event's text are those of its parts, none across parts |
| MemoryIndex.SafeOpKeepsSound | src/adk_aerospike/memory/service.py:291-295 | a write that comes in the right order keeps every ref pointing to a row with its token |
| MemoryIndex.PurgeIsSafe | src/adk_aerospike/memory/service.py:363-392 | every write of a purge comes in the right order, and exactly the rows found are gone |
| MemoryIndex.SoundAtEveryCrash | src/adk_aerospike/memory/service.py:261-392 | soundness holds after every prefix of such writes |
| MemoryAgreement.PurgeClears | src/adk_aerospike/memory/service.py:363-392 | a purge removes exactly the session's rows and refs, other refs stay in place |
| MemoryAgreement.ProgramKeepsOthers | src/adk_aerospike/memory/service.py:125-173 | wherever it is cut, a call changes no row and no ref of another session |
| MemoryAgreement.InsertAgreesIff | src/adk_aerospike/memory/service.py:261-330 | an insert keeps agreement iff every list it appends to is below the cap |
| MemoryAgreement.NewestAreKept | src/adk_aerospike/memory/service.py:317-330 | a posting list keeps its newest 2048 refs in order |
| MemoryRuns.RoomyNeverTrims | src/adk_aerospike/memory/service.py:317-330 | room for one more ref per searchable event in each list is enough for no trim |
| MemoryHistory.FewEventsNeverTrim | src/adk_aerospike/memory/service.py:317-330 | a history with at most 2048 searchable events per user never trims, crashes included |
| MemoryRuns.CrashKeepsIndexSound | src/adk_aerospike/memory/service.py:125-173 | after every single write of either call, trims included, each ref points to a row with its token |
| MemoryRuns.CallKeepsAgreement | src/adk_aerospike/memory/service.py:125-173 | a call keeps one ref per row and token and no other; re-adding replaces the session's rows; other sessions keep rows and refs, in order |
| MemoryRuns.RowsOfMeaning | src/adk_aerospike/memory/service.py:125-141 | the rows of a session are those of its events with text |
| MemoryRuns.CallAgreesExcept | src/adk_aerospike/memory/service.py:125-173 | a completed call keeps agreement for every session that had it, and adding a session restores it for that session |
| MemoryHistory.CutAgreesExcept | src/adk_aerospike/memory/service.py:125-173 | wherever a call is cut, soundness stays and only its own session can lose agreement |
| MemoryHistory.AddingRepairs | src/adk_aerospike/memory/service.py:125-141 | from any broken state of a session, adding it, with whatever events, restores full agreement |
| MemoryHistory.HistoriesAgree | src/adk_aerospike/memory/service.py:125-173 | over any history of calls and crashes, the index agrees for every session added again since it was last cut short |
| MemoryHistory.RunsAgree | src/adk_aerospike/memory/service.py:125-173 | any sequence of completed calls from the empty index ends in full agreement |
| MemoryHistory.AddingForgetsCrash | src/adk_aerospike/memory/service.py:125-141 | adding a session after a crash of either call leaves exactly the index as if the crashed call had never run, refs in the same order |
| MemoryHistory.RerunRepairsCrash | src/adk_aerospike/memory/service.py:125-141 | in particular, running a crashed add again completes it |
| MemoryRepeats.AddSessionSoundIff | src/adk_aerospike/memory/service.py:125-141 | adding a session leaves every ref pointing to a row with its token iff, of events with one id, the last has the keywords of all and the timestamp of those that have any |
| MemoryRepeats.AddSessionIndexedIff | src/adk_aerospike/memory/service.py:125-141 | under the same condition and no other each row stays listed under each of its keywords |
| MemoryRepeats.DistinctIdsCover | src/adk_aerospike/memory/service.py:125-141 | distinct ids meet that condition |
| MemoryRepeats.RepeatedIdStrandsRefs | src/adk_aerospike/memory/service.py:125-141 | a session that does not, and the ref it strands |
| MemorySearch.RankedMeaning | src/adk_aerospike/memory/service.py:245 | the sort is a stable permutation in descending (overlap, time) |
| MemorySearch.OverlapCounts | src/adk_aerospike/memory/service.py:240-243 | a further keyword raises the score by one iff the query has it and the row had it not |
| MemorySearch.MoreSharedScoresHigher | src/adk_aerospike/memory/service.py:240-243 | a row that shares more of the query's tokens scores higher |
| MemorySearch.AgreeIsIndexed | src/adk_aerospike/memory/service.py:261-392 | agreement implies the weaker condition that search needs: rows are listed, however often, and listed refs point |
| MemorySearch.CandidatesAreMatchesIff | src/adk_aerospike/memory/service.py:188-219 | the candidates are exactly the matching rows iff no two of those share an event id and there are no more of them than the cap |
| MemorySearch.SearchAgreesWithScan | src/adk_aerospike/memory/service.py:175-248 | then the hits are the k best of exactly the rows of the user that share a token with the query |
| MemoryService.Service.AppendPostingRef | src/adk_aerospike/memory/service.py:297-330 | issues the append and, over the cap, the trim |
| MemoryService.Service.UpsertMemory | src/adk_aerospike/memory/service.py:261-295 | issues the row and then a ref per token |
| MemoryService.Service.RemovePostingRefs | src/adk_aerospike/memory/service.py:332-361 | removes the ref from each keyword's list, missing lists passed over |
| MemoryService.Service.QueryRows | src/adk_aerospike/memory/service.py:369-375 | returns each row of the session once |
| MemoryService.Service.PurgeSessionMemories | src/adk_aerospike/memory/service.py:363-392 | issues the purge of what its query found |
| MemoryService.Service.AddSessionToMemory | src/adk_aerospike/memory/service.py:125-141 | issues the purge and then the inserts of its events with text; what is stored is those events and what was stored for others, and the index stays faithful to it |
| MemoryService.Service.AddEventsToMemory | src/adk_aerospike/memory/service.py:143-173 | inserts what is not stored yet, under the unknown session if none is given, and the index stays faithful to what is stored |
| MemoryContents.PreparedIsWellFormed | src/adk_aerospike/memory/service.py:277 | the tokens of an event meet what the index theorems ask of keywords |
| MemoryContents.AddSessionMeaning | src/adk_aerospike/memory/service.py:125-141 | after adding a session each of its events with a text is stored, nothing else of the session, and all else as before |
| MemoryContents.AddEventsMeaning | src/adk_aerospike/memory/service.py:143-173 | after adding events each with a text is stored if its row was free; nothing stored changes and nothing else is added |
| MemoryContents.SessionAdded | src/adk_aerospike/memory/service.py:125-141 | the rows then hold exactly those events, with their text, time and the tokens of their text, all listed, while the user has at most 2048 |
| MemoryContents.EventsAddedTo | src/adk_aerospike/memory/service.py:143-173 | the same after adding events |
| MemoryContents.MeetsIffHits | src/adk_aerospike/memory/service.py:240-243 | a row meets a query iff the text of its event shares a word with it |
| MemoryContents.TopIsTopEvents | src/adk_aerospike/memory/service.py:245-248 | the k best rows are the k best of exactly the events that share a word with the query |
| MemoryService.Service.GatherCandidates | src/adk_aerospike/memory/service.py:191-211 | the candidates come from the query's lists and cover them unless the cap was reached |
| MemoryService.Service.ReadRefs | src/adk_aerospike/memory/service.py:196-209 | the same for one list |
| MemoryService.Service.ScoreCandidates | src/adk_aerospike/memory/service.py:225-243 | scores the candidates that are rows and share a token |
| MemoryService.Service.SearchMemory | src/adk_aerospike/memory/service.py:175-248 | always at most k hits that match, by overlap and then time; the k best of all matching rows when rows are listed and matches within reach; after any calls that kept the index faithful, the k best of exactly the stored events that share a word with the query |
| MemoryService.SearchAfterAnyHistory | src/adk_aerospike/memory/service.py:125-248 | after any history of calls and crashes from an empty index, once every session cut short was added again, search equals the scan |
| ArtifactProtocol.StepKeeps | src/adk_aerospike/artifacts/service.py:82-204 | every step of saves, late puts, deletes and crashes keeps the invariant |
| ArtifactProtocol.VersionsStayBelowHead | src/adk_aerospike/artifacts/service.py:178-204 | between any two writes every stored version is below the head counter |
| ArtifactProtocol.SavesNeverCollide | src/adk_aerospike/artifacts/service.py:82-126 | saves of one head get distinct versions, and no create-only put is refused |
| ArtifactProtocol.SaveCompletes | src/adk_aerospike/artifacts/service.py:82-126 | a put that comes stores its artifact and the save returns |
| ArtifactProtocol.SaveNeverStuck | src/adk_aerospike/artifacts/service.py:82-126 | a running save can always put, and an abandoned put can always land |
| ArtifactProtocol.VersionsCountUp | src/adk_aerospike/artifacts/service.py:280-295 | the first save of a head gets version 0 and each next one the version after |
| ArtifactProtocol.LandedIsStored | src/adk_aerospike/artifacts/service.py:82-126 | an abandoned put that lands stores its artifact |
| ArtifactProtocol.ReturnedVersionIsStored | src/adk_aerospike/artifacts/service.py:82-126 | a returned version holds its own artifact until a delete removes that row |
| ArtifactProtocol.LaterSaveIsNewer | src/adk_aerospike/artifacts/service.py:280-295 | a save that starts after another returned gets a larger version, unless the head was deleted between |
| ArtifactProtocol.LatestCoversReturned | src/adk_aerospike/artifacts/service.py:128-157 | the largest stored version is at least every returned one that was not removed |
| ArtifactProtocol.DeletedHeadLeavesNothing | src/adk_aerospike/artifacts/service.py:178-204 | when the head goes no row is left, so versions restart at 0 on an empty artifact |
| ArtifactProtocol.DeleteCompletes | src/adk_aerospike/artifacts/service.py:178-204 | a delete that is not cut short removes the listed rows and the head, step by step |
| ArtifactService.NewestIsLargest | src/adk_aerospike/artifacts/service.py:138-144 | the newest part is the one of the largest stored version |
| ArtifactService.SortVersionsSorts | src/adk_aerospike/artifacts/service.py:206-216 | the listing is increasing and complete |
| ArtifactService.SavedReadsBack | src/adk_aerospike/artifacts/service.py:82-157 | the stored media type and bytes read back by version and as the newest, and no other version changes |
| ArtifactService.FailedSaveChangesNoRead | src/adk_aerospike/artifacts/service.py:98-102 | a save that fails on its part consumes a version and changes no read |
| ArtifactService.IdOfMeaning | src/adk_aerospike/_internal/keys.py:101-111 | an artifact needs a session unless its name starts with "user:"; two calls mean the same one iff app, user, name and, for other names, session are the same |
| ArtifactService.OneArtifactChanges | src/adk_aerospike/artifacts/service.py:95-117 | a change of one artifact leaves every load and the next version of all others |
| ArtifactService.Service.AllocateVersion | src/adk_aerospike/artifacts/service.py:280-295 | returns the count of versions taken so far and takes one |
| ArtifactService.Service.SaveArtifact | src/adk_aerospike/artifacts/service.py:82-126 | appends one version to the artifact's list and returns its number; it then loads as the newest and by number; no other artifact changes; never reports an existing record |
| ArtifactService.Service.VersionsFor | src/adk_aerospike/artifacts/service.py:297-349 | returns each stored version of the artifact once |
| ArtifactService.Service.ListVersions | src/adk_aerospike/artifacts/service.py:206-216 | exactly the stored versions, increasing |
| ArtifactService.Service.LoadArtifact | src/adk_aerospike/artifacts/service.py:128-157 | the version asked for, or the newest, or nothing |
| ArtifactService.Service.RemoveRows | src/adk_aerospike/artifacts/service.py:189-199 | removes the listed versions and nothing else |
| ArtifactService.Service.DeleteArtifact | src/adk_aerospike/artifacts/service.py:178-204 | the artifact has no versions and no head and numbering restarts, all others stay |

## Left out

- The Aerospike client, connection policies, TLS, authentication and secondary-index definitions: foreign calls; only the store rules above remain.
- URI parsing, the service registry and the schema tables: thin wrappers.
- Event validation, partial events and the base class's `append_event`: an event is an id, a time, a size and its text.
- Clocks, floating-point times and sleep jitter: times are natural numbers, a clock reading is a parameter, and the retry loops give up after any number of retries within their bound.
- The session manifest and `list_sessions`: set membership that would only add easy members.
- Deletes concurrent with appends or saves, and index caches of other processes that survive a delete and recreation: the code gives no guarantee there.
- SessionService.Service.AppendEvent: asks for an existing session record. The code also appends to a session that was deleted or never created: an event that fits goes into segment 0 of no session, and a session created later under that id reads it back as its own. A refused put goes on to a guarded increment of a missing record, whose effect is the server's.
- SessionService.Service.AppendBatch: asks for an existing session record, for the same reasons; with a delta the code creates a session record that has state but no segment index.
- State values under concurrent retried batches, where a late delta may overwrite a newer value: the state refinement is for sequential operations.
- Memory calls that interleave with each other: programs of writes run one after another, cut anywhere.
- The conversion of parts to media type and bytes and back, `list_artifact_keys` and version metadata: a part is its stored media type and bytes. A file part comes back as inline data, and inline data of type text/plain as text.
- LogTheorems.DeleteReclaimsEverything: speaks of the segments at the moment of the delete; a put that is still under way may create one afterwards.
- SessionService.Service.PlaceLoop: is sequential, so the failure after 64 attempts is unreachable there; the protocol model covers it.
- Tokens.TokenizeMeaning: the order of tokens is that of first occurrence where the code's set order is arbitrary; the index theorems hold for any order.
- MemorySearch.SearchAgreesWithScan: beyond 512 matches, or after a trim, the code stops early by design; which of the matches it then returns is not stated.
- ArtifactProtocol.LaterSaveIsNewer: numbering restarts after a completed delete, as in the code.
