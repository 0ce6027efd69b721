# A sharded key/value engine over an unreliable record store, in Dafny

The engine keeps byte payloads under logical keys in Aerospike. A payload that does not fit one record is cut
into segment records; a meta record, written last, announces how many there are and makes the key visible.
Readers go through the meta record, removals take it away first. There are two implementations of the same
record schema, one in Python and one in C++, and several batched, parallel and asynchronous forms on top.
This project models both implementations and proves what they promise, separately and together.

## How it is laid out

| file | what it holds |
|---|---|
| `Common.dfy`, `Records.dfy` | bytes, results, Python slices; the record map, its bins and upsert semantics (a write merges its bins into the record) |
| `Sharding.dfy`, `Limits.dfy` | both segment planners, slice lengths, cuts; discovery and clamping of the server limits |
| `Engine.dfy`, `NativeSpec.dfy` | put, get, remove, pin and their native counterparts as functions on the record map |
| `RoundTrip.dfy` | one write followed by one read, in every combination of the two implementations |
| `Sequential.dfy` | whole runs of one client at a time, against a plain map from keys to payloads |
| `Overwrites.dfy` | segments of one payload under the meta record of another: torn reads, and when there are none |
| `Concurrent.dfy` | the transition system of interleaved calls with crashes, faults, late writes and expiry |
| `Client.dfy`, `EngineClass.dfy`, `NativeClass.dfy` | the unreliable client and the two implementations step by step, proved against the functions |
| `Batched.dfy`, `BatchedGet.dfy`, `Parallel.dfy`, `Prefix.dfy` | batched, parallel and prefix forms, proved to agree with the one-key calls |
| `Completion.dfy`, `Registry.dfy` | the completion machine of L2 tasks; the ref-counted client registry |
| `Keys.dfy`, `PrintedRuns.dfy` | user keys as strings; whole runs on the string-keyed store |
| `NativeKeys.dfy` | the native translator from object keys to cache keys |

The record map is indexed by `MetaRec(k)` and `SegRec(k, i)`; `PrintedRuns.PrintedRun` shows that this loses nothing
against the strings the programs use. The serialized chunk metadata (bin `md`) is the buffer size it announces. `crc32` is an arbitrary function. In the classes a client call may fail in any way,
with its effect applied or not; `reliable` is the fault-free case. The transition system goes further: writes may
land late, several times or after their caller has died, and any record may vanish at any step.

## What does not hold

These are facts of the code; the lemmas named here show them or delimit them.

- A write without a `crc32` bin (by the native connector, or with checksums off) leaves the checksum of an older
  payload in the meta record, because writes merge. A reader that verifies then misses for good
  (`Sequential.StaleChecksumHidesPayload`). The same goes for the announced size in `md`: a longer payload written
  without it makes the buffer of a reader that uses it too small, and get raises (`Sequential.StaleSizeRaises`); a
  shorter one comes back in a buffer that is too large. The exact condition for both is `Sequential.GetAgreesExactly`.
- `exists` reads the meta record without looking at its state, while DESIGN.md speaks of a committed entry. An
  unguarded `pin_keys` of an absent key creates a record without state, which exists and never hits
  (`Sequential.GhostPinExistsButMisses`). The exact conditions are `Sequential.FlagsAgreeExactly` and
  `Sequential.CountAgreesExactly`.
- DESIGN.md (section 4.3.5, item 4) has overwriting readers see fully old or fully new bytes, never a mix. That fails
  without any concurrency: an overwriting put that stops inside its segment batch, or just after it, leaves the old
  meta record over new segments, and Python `get` compares no lengths (`Overwrites.TornRead`,
  `Overwrites.TruncatedRead`). For any two payloads and layouts it holds exactly when the parts found spell one of the
  two, part by part. Under one segment size: exactly when the payloads agree on the replaced segments, or when they
  agree on all others and the new payload fits the old layout (`Overwrites.OldOrNewExactly`). What a failed overwrite
  leaves readable is `Overwrites.FailedPutGivesExactly`. Readers that verify a stored checksum are safe in every run but
  for collisions (`Concurrent.VerifiedReadsAreWhole`), and so are all readers of a key whose puts carry the same payload
  in the same layout (`Concurrent.EveryGetIsSafe`).
- The storage plugin's prefix read drops what it has fetched when a later get raises: those buffers are neither returned
  nor released (`Prefix.PluginLoop`, `Prefix.DroppedHit`). The connector's has no such leak (`Prefix.ConnectorGet`).
- The native planner computes the intended layout only below two bounds (`Sharding.NativePlanIsExact`), and a
  native record of 4 GiB or more is truncated on writing (`RoundTrip.NativeReadsNativeSet`).
- A listener that raises in `_store_sync` prevents the notification of a result that is already stored
  (`Completion.RaisingListenerGetsStuck`); nothing else does (`Completion.OnlyListenersLoseWakeups`).
- The native key translator misreads a model name or salt that contains `@` (`NativeKeys.KeysAgreeExactly`).
- A `get` into a buffer of the caller releases that buffer when it fails after the meta record was read
  (`EngineClass.StorageEngine.Get`).

## Model

| member | source | states |
|---|---|---|
| Sharding.CeilDivIsLeast | src/lmcache_aerospike/sharding.py:42-46 | the doubly negated floor division is the least quotient that covers the dividend |
| Sharding.PlanBounds | src/lmcache_aerospike/sharding.py:19-58 | which plans get one record, exactly: within the target, within threshold and maximum, or within the maximum with balanced segments below the minimum; every other plan covers the payload with non-empty segments, each at most the target and more than half of it, the last at most nseg - 1 bytes short, and no smaller count would do |
| Sharding.PlanFailsExactly | src/lmcache_aerospike/sharding.py:28-58 | planning fails exactly for a non-empty payload with target above maximum; the second raise is unreachable |
| Sharding.SliceLengths | src/lmcache_aerospike/sharding.py:61-73 | all lengths but the last are the segment size, and they sum to the payload |
| Sharding.CutLength | src/lmcache_aerospike/engine.py:255-257 | no cut starts past the end or is empty; cut lengths equal the slice lengths |
| Sharding.CutsRecoverPayload | src/lmcache_aerospike/engine.py:253-260 | the writer's cuts joined in order are the payload |
| Sharding.NativePlanIsExact | csrc/aerospike/connector.cpp:420-432 | with its uint32 and size_t conversions the native planner gives the mathematical layout if and only if two size bounds hold |
| Limits.Discover | src/lmcache_aerospike/limits.py:70-100 | a positive max-record-size decides alone, else write-block-size does; accepted exactly when in the supported range, missing exactly when neither is positive |
| Limits.SupportedCaps | src/lmcache_aerospike/limits.py:97-100 | the supported range is 128 KiB to 8 MiB |
| Limits.ResolvesExactly | src/lmcache_aerospike/limits.py:116-155 | resolution fails exactly for a positive time to live without server expiry; target, maximum, threshold and minimum are the configured values or their defaults, unless the cap minus 65536 is tighter |
| Limits.NativeResolvesExactly | csrc/aerospike/connector.cpp:99-109 | the same for the native constructor, which refuses a cap of at most 65536 |
| Limits.ResolvedPlanFailsExactly | src/lmcache_aerospike/limits.py:116-155 | after clamping, planning fails exactly when an operator maximum undercuts the clamped target; never without override |
| Limits.PlannedRecordsFitTheServer | src/lmcache_aerospike/limits.py:126-155 | every payload bin of a planned put stays at least 65536 bytes below the server cap |
| Engine.WriteSegsPointwise | src/lmcache_aerospike/engine.py:253-270 | the segment batch merges exactly the planned cuts into exactly the planned records |
| Engine.GatherCuts | src/lmcache_aerospike/engine.py:176-204 | a Python read over any subset of the right segments gives the payload exactly when none is missing and the buffer suffices, and otherwise fails cleanly |
| Engine.UnusualRecords | src/lmcache_aerospike/engine.py:160-180 | gets of records that no put writes: not ready, without segment count, with a count below one, and the one kind of record for which the buffer is kept |
| Engine.RemovesExactly | src/lmcache_aerospike/engine.py:570-601 | a removal takes the meta record and exactly the segments it announces, if there are several, and nothing without a meta record |
| Engine.PinsExactly | src/lmcache_aerospike/engine.py:545-568 | pinning and unpinning a present key sets its pin bin, true and false, and changes nothing else; an absent key is left alone |
| NativeSpec.NativeLayoutIsValid | csrc/aerospike/connector.cpp:420-432 | within its bounds the native planner succeeds with a layout a reader can rely on |
| NativeSpec.NativeRecordsFitTheServer | csrc/aerospike/connector.cpp:99-109 | with the limits the constructor derives, every native record stays at least 65536 bytes below the discovered cap |
| NativeSpec.NativeCommitIsCommit | csrc/aerospike/connector.cpp:226-245 | below 4 GiB a native set leaves the same records as a Python put without checksum under the native layout |
| NativeSpec.NativeReadOfLayout | csrc/aerospike/connector.cpp:186-224 | the fallbacks and conversions of a native read change nothing for a record in range; any other length is refused |
| NativeSpec.NativeFallbacks | csrc/aerospike/connector.cpp:55-58 | without positive segment count and total size a native read takes one record of exactly the requested length |
| NativeSpec.NativeDeletesExactly | csrc/aerospike/connector.cpp:293-316 | a native delete takes the meta record and exactly the segments it announces, one at least |
| NativeSpec.NativeGatherCuts | csrc/aerospike/connector.cpp:214-223 | the native read loop gives exactly the payload, and succeeds exactly when no segment is missing |
| RoundTrip.CommitHolds | src/lmcache_aerospike/engine.py:220-294 | over any earlier records a commit makes the key hold the payload with the pin asked for, checksums its segments when asked to, keeps a stale checksum, announced size or inline payload only when it writes none, and touches no other record |
| RoundTrip.GetFromHolds | src/lmcache_aerospike/engine.py:134-218 | a get from a key that holds a payload: that payload, or precisely which failure for which cause |
| RoundTrip.NativeGetFromHolds | csrc/aerospike/connector.cpp:160-224 | a native get succeeds exactly when asked for the length of the payload, and then delivers it |
| RoundTrip.NativeReadsPythonPut | csrc/aerospike/connector.cpp:160-224 | native get after Python put recovers the payload, for any two configurations, exactly at its length |
| RoundTrip.PythonReadsNativeSet | src/lmcache_aerospike/engine.py:134-218 | Python get after native set recovers the payload if and only if no stale checksum contradicts it and the buffer, which stale chunk metadata may size, suffices |
| RoundTrip.NativeReadsNativeSet | csrc/aerospike/connector.cpp:160-245 | native get after native set recovers the payload if and only if no record reaches 4 GiB |
| RoundTrip.RemoveErases | src/lmcache_aerospike/engine.py:570-601 | after either removal nothing is visible to either reader, and no segment of the last layout survives |
| Sequential.StepRefines | src/lmcache_aerospike/engine.py:113-294 | each operation of either implementation shows the caller what the abstract map shows, and keeps the relation |
| Sequential.RunRefines | src/lmcache_aerospike/engine.py:113-601 | the same for every run: changing segment counts, orphan segments and stale inline payloads never show |
| Sequential.StoreIsAPlainMap | src/lmcache_aerospike/engine.py:113-601 | every run with consistent checksum and chunk metadata settings and guarded pins is indistinguishable from a map from keys to bytes |
| Sequential.GetAgreesExactly | src/lmcache_aerospike/engine.py:134-218 | after any run, a get agrees with that map if and only if no size left behind by an older payload misfits its buffer and no checksum left behind is verified |
| Sequential.FlagsAgreeExactly | src/lmcache_aerospike/engine.py:113-132 | after any run, the flags of exists, remove, pin, unpin and native delete agree with that map if and only if the key is in it or was not pinned unconditionally |
| Sequential.CountAgreesExactly | src/lmcache_aerospike/engine.py:474-497 | after any run, a contains count agrees with that map if and only if the first key outside the map was not pinned unconditionally |
| Sequential.RunsStayUsable | src/lmcache_aerospike/engine.py:220-294 | in every run a ready meta record tells its segment count, and a single record has its payload |
| Sequential.StaleChecksumHidesPayload | csrc/aerospike/connector.cpp:490-521 | a concrete run in which a native overwrite cannot be read by a verifying client |
| Sequential.StaleSizeRaises | src/lmcache_aerospike/serde.py:55-71 | a concrete run in which a longer native overwrite makes a reader that sizes its buffer by chunk metadata raise |
| Sequential.GhostPinExistsButMisses | src/lmcache_aerospike/engine.py:520-543 | a concrete run in which `exists` is true and get misses |
| Overwrites.MixedReadOutcome | src/lmcache_aerospike/engine.py:186-196 | a read without verification delivers the segments it finds joined in order, whichever puts wrote them, if the buffer suffices |
| Overwrites.JoinsExactly | src/lmcache_aerospike/engine.py:187-196 | parts of any lengths joined in order are a payload if and only if each is its slice at that part's offset and together they reach its end |
| Overwrites.OldPayloadExactly | src/lmcache_aerospike/engine.py:182-212 | with any segments replaced by cuts of another payload in any layout, such a read gives a payload if and only if the buffer suffices and the parts spell it; under one segment size the old one if and only if no replaced cut differs |
| Overwrites.OldOrNewExactly | src/lmcache_aerospike/engine.py:253-275 | such a read is fully old or fully new if and only if the parts spell one of the two; under one segment size, if and only if the payloads agree on the replaced segments, or on the others and the new one fits the old layout |
| Overwrites.FailedPutMixes | src/lmcache_aerospike/engine.py:269-275 | a put that stops in its segment batch leaves the old meta record over exactly the segments it wrote |
| Overwrites.FailedPutGivesExactly | src/lmcache_aerospike/engine.py:269-275 | after such a put, of any payload in any layout, a get without verification gives a payload if and only if the buffer suffices and the parts spell it; under one segment size, spelling the old or the new one is agreement on the written or on the other segments |
| Overwrites.FailedPutSparesSingleRecord | src/lmcache_aerospike/engine.py:176-181 | after such a put a get of a key stored in one record gives what it gave before |
| Overwrites.TornRead | src/lmcache_aerospike/engine.py:186-196 | two puts, the second failing after one segment, after which get delivers a mixture of two payloads |
| Overwrites.TruncatedRead | src/lmcache_aerospike/engine.py:186-196 | two puts, the second, longer one failing before its meta write, after which get delivers the beginning of its payload |
| Concurrent.NoGetLeaks | src/lmcache_aerospike/engine.py:144-218 | in every run with any payloads and faults no get keeps a buffer it does not return; without a failed call it neither raises before it has a buffer nor times out, and the status of a failed call decides the outcome |
| Concurrent.VerifiedReadsAreWhole | src/lmcache_aerospike/engine.py:198-207 | in every such run what a verifying get delivers over a checksummed meta record has the checksum of a payload committed under that key; so it is one, where checksums distinguish |
| Concurrent.FinishIsSafe | src/lmcache_aerospike/engine.py:160-216 | a read from a complete meta record and any subset of its segments is safe for both readers |
| Concurrent.NextKeepsInv | src/lmcache_aerospike/engine.py:220-294 | for a key whose puts all carry the same, every step of every call on any key, fault and expiry keeps: its segments hold their slice, its meta record is complete or a pin ghost |
| Concurrent.EveryGetIsSafe | src/lmcache_aerospike/engine.py:134-218 | for a key whose puts all carry the same, in every interleaving with anything else on any key, with failing calls, partial batches, crashes and expiry, a finished get is a miss or exactly the payload; it raises only for want of buffer or because a call failed |
| Concurrent.UncommittedIsInvisible | src/lmcache_aerospike/engine.py:253-275 | in every run, until some put has got past its segment batch, no get of the key succeeds |
| Concurrent.RemovedKeysAreGone | src/lmcache_aerospike/engine.py:582-601 | in every run, when a removal has reported success and no write of the meta record was applied after it took effect, the meta record is absent |
| Concurrent.RemovalKnowsLayout | src/lmcache_aerospike/engine.py:571-601 | a removal that finds a ready key announces its layout: after the meta record it may remove every segment |
| Concurrent.PinTakesEffect | src/lmcache_aerospike/engine.py:526-543 | an applied pin or unpin sets the pin bin of the record, there or not, and changes nothing else |
| Concurrent.ReadyImpliesComplete | csrc/aerospike/connector.cpp:238-244 | for a key whose puts all carry the same, in every run in which none of its records expires and no removal of its meta record takes effect, a ready meta record has all its segments; removals may be tried and fail, reads may fail, other keys are free |
| Concurrent.ReportedPutIsVisible | src/lmcache_aerospike/engine.py:269-276 | in every such run a put that reported success has left the key ready and complete |
| Concurrent.SeeingGetDelivers | src/lmcache_aerospike/engine.py:160-212 | in every such run a get that saw the meta record delivers the payload if its buffer fits and none of its own reads failed |
| Concurrent.VisibleKeysHit | src/lmcache_aerospike/engine.py:253-275 | in every such run, once the key is ready, every get of it that ends later, with a fitting buffer and none of its own reads failed, delivers the payload |
| Concurrent.PythonLayoutIsGood | src/lmcache_aerospike/sharding.py:19-58 | the layouts of the Python planner meet the premise of the results above |
| Concurrent.NativeLayoutIsGood | csrc/aerospike/connector.cpp:420-432 | so do those of the native planner |
| Client.ApplyMaskAt | src/lmcache_aerospike/policies.py:57-66 | a write of a batch that was applied is merged into its record whatever happened to the others |
| Client.ApplyMaskKeepsUsable | src/lmcache_aerospike/engine.py:520-543 | no batch the engine writes, performed to any extent, makes a ready meta record unusable |
| EngineClass.WritePayloadInto | src/lmcache_aerospike/serde.py:74-101 | copies all or nothing, succeeds exactly when the payload fits, touches nothing else |
| EngineClass.CopySegments | src/lmcache_aerospike/engine.py:176-204 | the loop computes the specified read, fills the front of the buffer and releases it exactly on failure |
| EngineClass.FailureTable | src/lmcache_aerospike/errors.py:52-83 | which client failures a put refuses, which escape, and which `exists` and `get` turn into a miss, an exception or a timeout |
| EngineClass.StorageEngine.Exists | src/lmcache_aerospike/engine.py:113-132 | decided by the status of the read: true only for a present meta record, a timeout hidden, other failures raised; exact without faults |
| EngineClass.StorageEngine.Put | src/lmcache_aerospike/engine.py:220-294 | success means the whole commit happened; after any fault the store is as before, has some of the segment writes and nothing else, or has the whole commit; no other key changes |
| EngineClass.StorageEngine.PutSegments | src/lmcache_aerospike/engine.py:253-272 | performs some of the segment writes and nothing else; success only if all of them |
| EngineClass.StorageEngine.ReadInto | src/lmcache_aerospike/engine.py:174-216 | the part of a get that owns a buffer: under any faults exactly what the records read lead to; contents and reference count |
| EngineClass.StorageEngine.Get | src/lmcache_aerospike/engine.py:134-218 | under any faults exactly the outcome that the reported statuses and records lead to; a hit puts the payload at the front of the returned buffer; while ready records are usable, every buffer taken and not returned is released exactly once |
| EngineClass.StorageEngine.PinKeys | src/lmcache_aerospike/engine.py:520-543 | writes the pin bin of the given keys and nothing else; under faults each record is as it was or pinned |
| EngineClass.StorageEngine.Pin | src/lmcache_aerospike/engine.py:564-568 | pins a present key; under any faults the record is as it was or pinned, and no record appears |
| EngineClass.StorageEngine.Unpin | src/lmcache_aerospike/engine.py:545-562 | success leaves the pin bin false; under any faults the record is as it was or unpinned, and no record appears |
| EngineClass.StorageEngine.Remove | src/lmcache_aerospike/engine.py:570-601 | nothing is touched while the meta record is there, and afterwards only segments it announced; true means it is gone whatever happened to them |
| EngineClass.StorageEngine.BatchedContains | src/lmcache_aerospike/engine.py:474-497 | counts leading present keys: exact without faults, an underestimate otherwise |
| NativeClass.NativeConnector.ReadPayloadRecord | csrc/aerospike/connector.cpp:523-549 | fills exactly the given window, only from a record of exactly that size |
| NativeClass.NativeConnector.DoSingleGet | csrc/aerospike/connector.cpp:160-224 | matches the specified read for any meta record, never writes outside the region |
| NativeClass.NativeConnector.ReadSegments | csrc/aerospike/connector.cpp:214-223 | the offset never passes the length, so the unsigned subtraction never wraps; each byte comes from its segment |
| NativeClass.NativeConnector.DoSingleSet | csrc/aerospike/connector.cpp:226-245 | success is the whole commit; a failure has written the first so many segments and nothing else, or the whole commit |
| NativeClass.NativeConnector.PutSegments | csrc/aerospike/connector.cpp:238-243 | the start of a segment never passes the length; success means all segments are written |
| NativeClass.NativeConnector.DoSingleDelete | csrc/aerospike/connector.cpp:273-317 | nothing is touched while the meta record is there, and afterwards only segments it announced; true means it is gone, false that it was not there |
| Batched.BatchedPut | src/lmcache_aerospike/engine.py:298-335 | without faults the same store as put after put and all true; under any faults a true means completely stored |
| Batched.BatchedPutChunk | src/lmcache_aerospike/engine.py:337-397 | the same for one chunk; the batch path is taken exactly when every item is planned as one record, the per-key path for all other planned chunks; an unplannable item stops it before any write |
| Batched.PutInline | src/lmcache_aerospike/engine.py:386-397 | an item is flagged exactly if its own record was reported done; only a failure of the call escapes |
| Batched.PutEach | src/lmcache_aerospike/engine.py:370-384 | a refused put gives a false flag and the next one is tried; any other failure escapes |
| Batched.AppliedInlineIsPutAll | src/lmcache_aerospike/engine.py:386-397 | a batch of single-record writes equals the sequence of puts |
| BatchedGet.BatchedGetPreallocated | src/lmcache_aerospike/engine.py:399-427 | without faults flag i is set exactly when a get of key i would hit, and buffer i then starts with its payload; however the call ends, the flags set so far are right; a flagged buffer keeps its reference count, another one loses at most one, and without faults exactly when a segment read missed |
| BatchedGet.LoadDeferred | src/lmcache_aerospike/engine.py:470-472 | the deferred multi-segment pass: flags are right even if a segment read times out half-way |
| BatchedGet.LoadChunk | src/lmcache_aerospike/engine.py:429-472 | the same for one chunk at an offset; flags outside its window are untouched; a failed batch read changes nothing and ends the call |
| Parallel.ParallelChunks | src/lmcache_aerospike/l2_plugin.py:255-281 | in any completion order: the results of the chunks in input order |
| Parallel.ChunkingIsInvisible | src/lmcache_aerospike/l2_plugin.py:255-281 | for a function that treats items one by one, chunked and unchunked results are the same |
| Parallel.PutExactlyStep | src/lmcache_aerospike/l2_plugin.py:272-277 | after any set of the puts, in any order, every record is as if its own put had been the only one |
| Parallel.RunChunks | src/lmcache_aerospike/l2_plugin.py:255-281 | batched puts of the chunks in any completion order leave the store of one sequence of puts; flags stay true to the store |
| Parallel.StoreSync | src/lmcache_aerospike/l2_plugin.py:283-315 | a store reported ok has stored every pair, with the sum of all sizes as total; otherwise the total counts the pairs flagged true, all of them stored; without faults it is put after put |
| Parallel.Tally | src/lmcache_aerospike/l2_plugin.py:302-308 | ok exactly when all flags are true; the total is the sum of the sizes of the items flagged true |
| Completion.EveryTaskIsDeliveredOnce | src/lmcache_aerospike/l2_plugin.py:191-205 | in every interleaving a finished task is delivered by one pop or still waiting, never both, never twice, with its own result |
| Completion.PopDrains | src/lmcache_aerospike/l2_plugin.py:201-205 | a pop completes the delivery of every finished task and leaves nothing behind |
| Completion.OnlyListenersLoseWakeups | src/lmcache_aerospike/l2_plugin.py:313-317 | if results wait with nobody about to signal or pop, all of them are successful stores whose listener raised |
| Completion.NoSpuriousWakeups | src/lmcache_aerospike/l2_plugin.py:313-317 | the consumer is never woken more often than it was notified |
| Completion.NoLostWakeup | src/lmcache_aerospike/l2_plugin.py:313-317 | without raising listeners no run gets stuck |
| Completion.RaisingListenerGetsStuck | src/lmcache_aerospike/l2_plugin.py:315-317 | a raising listener does get a run stuck |
| Completion.FreshIds | src/lmcache_aerospike/l2_plugin.py:250-253 | in every interleaving the ids of store, lookup and load tasks are pairwise distinct and the next one is new |
| Registry.RunCounts | src/lmcache_aerospike/client.py:51-75 | over every run a reference count moves by acquisitions minus effective releases, and the registry stays consistent |
| Registry.EveryRunIsSound | src/lmcache_aerospike/client.py:51-75 | from the start: registered, open and positively counted are the same thing; closed at most once; one live holder per key |
| Registry.ReleaseIsPrivate | src/lmcache_aerospike/client.py:62-75 | a release, stale or last, never disturbs another holder or its registration |
| Registry.AcquiresExactly | src/lmcache_aerospike/client.py:51-60 | an acquisition fails exactly if nothing is registered and the client cannot connect, and then changes nothing; otherwise it returns the registered holder, a new one only if there was none, and touches no other |
| Registry.HolderRegistry.GetOrCreate | src/lmcache_aerospike/client.py:51-60 | the class does the specified acquisition: null exactly if nothing was registered and the client cannot connect, and then nothing has changed; else the holder now registered for the key |
| Registry.HolderRegistry.Release | src/lmcache_aerospike/client.py:62-75 | the class does the specified release |
| Keys.PrintIsInjective | src/lmcache_aerospike/keys.py:8-22 | meta and segment keys are pairwise distinct over all logical keys, separators included, and all indices |
| Keys.PrintedKeys | src/lmcache_aerospike/keys.py:8-22 | the suffixes of meta and segment keys |
| Keys.DecimalIsCanonical | src/lmcache_aerospike/keys.py:13-15 | a text of digits without leading zero is the print of its value |
| Keys.RepresentsKept | csrc/aerospike/connector.cpp:401-409 | writing or removing one printed key changes exactly the record it stands for |
| PrintedRuns.ActsAreTheStep | src/lmcache_aerospike/engine.py:220-294 | each operation is the sequence of upserts and removals it sends, all of them on records of keys it names |
| PrintedRuns.PrintedRun | src/lmcache_aerospike/keys.py:8-22 | every run performed on printed keys represents the run on the record map, and the printed records of keys no operation names keep their bins |
| Keys.List | src/lmcache_aerospike/connector.py:175-184 | the scan loop keeps the owners of meta records, in scan order |
| Keys.ListIsExact | src/lmcache_aerospike/connector.py:168-186 | what `list` returns are exactly the logical keys that own a meta record |
| NativeKeys.SplitLoop | csrc/aerospike/connector.cpp:34-44 | the index loop computes the split |
| NativeKeys.SplitInvertsJoin | csrc/aerospike/connector.cpp:34-44 | splitting inverts joining separator-free parts |
| NativeKeys.ParseHexU64 | csrc/aerospike/connector.cpp:384-399 | succeeds exactly on hex digits and gives the value modulo 2^64 |
| NativeKeys.TrimIsModulo | csrc/aerospike/connector.cpp:373-382 | trimming the text is printing the value modulo 2^64 canonically |
| NativeKeys.NativeKey | csrc/aerospike/connector.cpp:350-371 | the translator computes the translation of the split fields |
| NativeKeys.NativeFailsExactly | csrc/aerospike/connector.cpp:352-357 | it fails exactly for a wrong number of fields or a rank that is not hexadecimal |
| NativeKeys.RankLayout | csrc/aerospike/connector.cpp:357-361 | the rank holds the world size in bits 24 to 31 and the worker in bits 16 to 23; a world of zero counts as one |
| NativeKeys.PrintedFields | src/lmcache_aerospike/object_keys.py:22-36 | the fields of the printed cache key, in order: model, world size, worker, low 64 bits of the hash, dtype, tagged salt |
| NativeKeys.HashOrder | src/lmcache_aerospike/object_keys.py:26 | hashes are read and printed from the most significant byte on |
| NativeKeys.KeysAgreeExactly | src/lmcache_aerospike/object_keys.py:11-36 | the native translation of a printed object key equals the Python mapping if and only if neither model name nor salt contains the separator |
| Prefix.KeepPrefix | src/lmcache_aerospike/connector.py:151-163 | returns the maximal prefix of buffers untouched and releases every later buffer exactly once |
| Prefix.ConnectorGet | src/lmcache_aerospike/connector.py:142-163 | without faults exactly the payloads of the leading hits; under any faults returned buffers hold what a get of their key gives and, while ready records are usable, every buffer taken by any of the gets is returned, or has been released exactly once |
| Prefix.PluginLoop | src/lmcache_aerospike/storage_plugin.py:203-219 | under any faults the buffers fetched hold what a get of their key gives; they are all returned, or all dropped unreleased if a get raises; while ready records are usable, the buffer of the get that ends the loop is released |
| Prefix.PluginGet | src/lmcache_aerospike/storage_plugin.py:203-219 | the same, and without faults what is fetched are the payloads of the leading hits, and the call raises exactly when the get that ends the run raises |
| Prefix.DroppedHit | src/lmcache_aerospike/storage_plugin.py:211-218 | a concrete run after which the loop fetches one key and drops it because the get of the next raises |
| Prefix.BatchedGet | src/lmcache_aerospike/connector.py:96-102 | results in request order, equal keys share one result; without faults it fails exactly when some get raises |
| Prefix.AsyncContains | src/lmcache_aerospike/connector.py:122-136 | counts a run of present keys, without faults the maximal one, pins exactly those and changes nothing else |
| Prefix.PinsOfPresentKeys | src/lmcache_aerospike/engine.py:526-543 | pinning present keys creates no ghost |

## Left out

- The Aerospike client, cluster and policies: timeouts, replica and commit levels and info calls are a record map
  with arbitrary outcomes per call; `EXISTS_IGNORE` (src/lmcache_aerospike/policies.py:63) is modelled as merging.
- Time to live: expiry is "any record may vanish at any step"; the bins `created_at` and `ver` carry nothing the
  reads here depend on.
- Torch tensors, metadata serialisation, allocators and reshaping: a buffer is a byte array with a reference
  count. Chunk metadata are the size of the object they describe, which is taken to be its payload size; an allocator
  gives a buffer of the size asked for, or nothing. In the sequential runs a full-chunk buffer comes back cut down to
  the bytes read; the class leaves that step out. Building a tensor from an empty payload is not modelled.
- Option parsing, error tables, metrics and the wiring of plugins: only one-branch facts.
- CRC-32 itself: an arbitrary function, the same on both sides.
- Batched.BatchedPut: for distinct keys, since a batch write promises no order among equal keys.
- Parallel.RunChunks: each chunk is one step; interleavings inside chunks are those of the transition system.
- Parallel.ParallelChunks: the chunk function is total here; failing chunks are part of `Parallel.RunChunks`. The
  second test for a single chunk never succeeds and has no counterpart.
- BatchedGet.BatchedGetPreallocated: for distinct buffers; the contents of buffers without a flag are open.
- The number of client calls: that chunks hold 32 keys shows in no result.
- NativeSpec.NativeLayoutIsValid: under `Plannable`; beyond it the conversions truncate, which
  `Sharding.NativePlanIsExact` delimits.
- RoundTrip.NativeGetFromHolds: for payloads below 2^63 bytes, the largest an integer bin can announce, and fewer
  than 2^32 segments, since the reader casts `nseg` to 32 bits.
- RoundTrip.NativeReadsPythonPut: for payloads below 2^63 bytes that take fewer than 2^32 segments.
- Sequential.RunRefines: for payloads below 2^63 bytes and 2^32 segments, and native targets below 4 GiB.
- NativeClass.NativeConnector.DoSingleSet: an empty payload with a null buffer.
- Completion.NoLostWakeup: for store tasks; lookup and load tasks are popped by id from maps of their own and draw
  from the same counter. A listener is only called for a store of at least one key, which the machine does not track.
- The lock counts of L2 lookups: each unlock unpins the record, whatever the count says
  (src/lmcache_aerospike/l2_plugin.py:373-382), so no pinning guarantee is stated.
- The lookup and load bodies of the L2 plugin: per-key flags over `batched_exists_mask` and
  `batched_get_preallocated`, without state of their own.
- The in-flight key set of the storage plugin's put tasks: it is not emptied after a failed put.
- The text forms of LMCache's own key classes, which are not part of this model: their fields and separators are
  taken from the translators on both sides.
- Thread pools, event loops, event descriptors and the worker base class of the native connector: only the order
  of steps the code fixes.
