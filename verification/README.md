# A verified model of the replication engine

The proxy speaks S3 to its clients and keeps every object on several backends. `MultiBackend` decides
what a write does to the backends and what a read asks of them. This project models that engine in
Dafny and proves what it guarantees, over every schedule of its tasks, with two smaller algorithms
beside it: the choice of the primary backend by latency, and the canonical forms and the
authorization header of AWS Signature Version 4.

`dafny verify dfyconfig.toml` checks everything.

## How it is organised

The broadcast of one stream to all backends
- `Broadcast` is the step relation of `broadcast_stream_to_backends`: a producer that takes chunks from
  the source and sends each to every channel in turn, bounded FIFO channels, and a task per backend that
  receives, finishes or gives up. A schedule is a list of steps; steps interleave freely.
- `BroadcastProgress` bounds memory and skew, shows that no state is stuck and that every schedule ends,
  and says how a finished broadcast looks.
- `PutObject` is the same code in its imperative form, on real backend objects. Each of its loops is
  proved to take steps of the step relation, so what holds of every schedule holds of it.
- `StreamBody` is the second bounded channel that stands behind a remote backend. `RemoteBackend` is a
  broadcast with any set of such backends, and `RemoteProgress` shows that it is never stuck and ends.

The backends
- `InMemoryStorage` is the in-memory backend as a class. It shows that the contract the rest relies on is
  met: Ok means the body was read to its end and its concatenation stored, Err means nothing was stored.

The write modes, as concurrent systems over all clients and backends
- `MultiSync`, `MultiSyncAnswers`, `MultiSyncConvergence` and `MultiSyncOverlap`: `MULTI_SYNC`, what it
  guarantees when operations on one key do not overlap, what it reports when backends fail, which overlaps
  are harmless, and exactly when an operation may be started without endangering agreement.
  `DeleteObject` is its delete in imperative form.
- `AsyncReplication`, `AsyncConvergence`, `AsyncDivergence`, `AsyncFailures`: `ASYNC_REPLICATION`, where
  replica values come from, when the replicas agree again, exactly which writes endanger that, and what
  failed background operations leave behind.

The read modes
- `ReadHelpers`, `ListConsistency`, `ReadModes`, `ListDivergence`: fallback, race and all-consistent reads
  for GET, HEAD and LIST, and what a LIST cut at its limit can tell about the replicas. `RegularReads`
  lets a GET overlap with writes of its own key.

The smaller algorithms
- `PrimaryByLatency`, `CanonicalQuery`, `CanonicalRequest`, `Authorization`.

`Types`, `Sequences`, `Sorting` and `Strings` hold what the others share.

## Where the code differs from its documentation

The model follows the code.

- A race ends at the first success *or* not-found answer (src/storage/multi_backend/utils.rs:99-103);
  docs/docs/read-write-modes.md:91 mentions the first success only. `RaceExactly` states the consequence.
- docs/docs/read-write-modes.md:253 says that `NoSuchBucket` also stops a fallback; GET and HEAD test
  `NoSuchKey` only (src/storage/multi_backend/get_object.rs:35, head_object.rs:27).
- When every backend fails, the fallback of GET and HEAD answers `NoSuchKey`, although no backend said so
  (`FallbackOutcome`).
- An all-consistent read of a key that is absent everywhere answers with an internal error, not
  `NoSuchKey` (`ReadModesAgree`).
- An all-consistent LIST compares listings cut at a limit (src/handlers/list_objects.rs:38 passes at most
  1000) and so misses what differs past it; `NothingMissedExactlyBelowLimit` says exactly when.
- A `MULTI_SYNC` put that one backend fails leaves the object on the others. `PartialFailure` says exactly
  when the replicas still agree.
- The loop that strips the scheme of an authorization header strips it as often as it is repeated, and a
  negative `max_keys` is no limit at all: both are modelled as they are.

## Model

| member | source | states |
|---|---|---|
| Broadcast.ExactDelivery | src/storage/multi_backend/put_object.rs:185-224 | In every reachable state of every schedule, an open backend's consumed chunks followed by its queue are the prefix of the source sent to it so far; a backend that stored has consumed the whole source in order and the source did not fail, whatever the others did |
| Broadcast.NextInv | src/storage/multi_backend/put_object.rs:202-233 | Each of the six kinds of step keeps the delivery invariant of the producer and of every task |
| BroadcastProgress.MemoryBound | src/storage/multi_backend/put_object.rs:186-189 | At most 256 items per backend wait in the channels at any time |
| BroadcastProgress.MemoryReached | src/storage/multi_backend/put_object.rs:186-189 | With 256 chunks or more some schedule fills every channel with 256 of them: the bound is reached |
| BroadcastProgress.SkewBound | src/storage/multi_backend/put_object.rs:207-211 | No open backend is ever more than 257 chunks ahead of another open one |
| BroadcastProgress.SkewReached | src/storage/multi_backend/put_object.rs:207-211 | With 257 chunks or more and two backends some schedule has one of them 257 chunks ahead |
| BroadcastProgress.NeverStuck | src/storage/multi_backend/put_object.rs:202-233 | Despite the sequential blocking sends a reachable state is either finished or has a step it can take without any backend giving up |
| BroadcastProgress.MeasureFalls | src/storage/multi_backend/put_object.rs:202-233 | Every step of every schedule strictly lowers a measure of sends left, queued items and unfinished tasks |
| BroadcastProgress.EveryRunEnds | src/storage/multi_backend/put_object.rs:202-233 | No schedule is longer than an explicit bound in the number of chunks and backends |
| BroadcastProgress.CanFinish | src/storage/multi_backend/put_object.rs:202-233 | From every reachable state some schedule finishes the broadcast with no further backend giving up |
| BroadcastProgress.FailureCause | src/storage/multi_backend/put_object.rs:193-197 | A task that gives up fails with the very error it gave up with; every failure is the error of such a step of this task or the source's own error |
| BroadcastProgress.FinishedOutcome | src/storage/multi_backend/put_object.rs:223-235 | Without a source error a finished backend has stored the whole source if and only if it did not give up itself, and has failed with an error if and only if it gave up with that error; with one, every backend has failed, those that did not give up with the source's error |
| BroadcastProgress.FaultNeverStores | src/storage/multi_backend/put_object.rs:213-218 | With a failing source no task is ever able to reach a normal end of stream, also after the broadcast has returned |
| InMemoryStorage.DrainSource | src/storage/in_memory.rs:99-106 | Draining a stream gives the concatenation of its chunks, or the error it ends with |
| InMemoryStorage.DrainStopsAtError | src/storage/in_memory.rs:102-105 | What follows the first error of a stream does not matter |
| InMemoryStorage.InMemoryStorage.PutObject | src/storage/in_memory.rs:99-124 | Ok: the drained body is stored under the key with its length, ETag, content type and this time, all other keys as before; Err: the body's error and an unchanged store |
| InMemoryStorage.InMemoryStorage.DeleteObject | src/storage/in_memory.rs:126-132 | The key is gone, all others are as before, and an absent key is no error |
| InMemoryStorage.InMemoryStorage.HeadObject | src/storage/in_memory.rs:76-83 | The stored metadata, whose key, size and ETag are those of the data, or NoSuchKey |
| InMemoryStorage.InMemoryStorage.GetObject | src/storage/in_memory.rs:85-97 | A stream that drains to the stored data, with its metadata, or NoSuchKey |
| InMemoryStorage.InMemoryStorage.ListObjects | src/storage/in_memory.rs:49-73 | For any iteration order of the hash map: objects whose key starts with the prefix, in ascending order of their code points, each key once; what is left out comes after all of them, and only if max_keys are listed; a negative max_keys leaves nothing out |
| Strings.LexLeExactly | src/storage/in_memory.rs:69 | The order of keys is the lexicographic one: a prefix comes first, otherwise the smaller code point where two strings first differ |
| Sequences.ConcatAppend | src/storage/in_memory.rs:101-106 | What is stored does not depend on how the data was cut into chunks: nothing is lost, doubled or reordered |
| InMemoryStorage.ListingUnique | src/storage/in_memory.rs:49-73 | A store and a prefix have only one such listing |
| InMemoryStorage.ListingsAgree | src/storage/in_memory.rs:49-73 | Stores with the same contents list the same entries at the same positions, but for time stamps, also when truncated |
| PutObject.TaskRunsPutObject | src/storage/multi_backend/put_object.rs:191-198 | A finished task of the step relation returns what the backend's put_object returns for the stream it was sent |
| PutObject.BroadcastRun.Transmit | src/storage/multi_backend/put_object.rs:207-217 | Under every schedule of the tasks a send waits for room or a closed receiver and then goes on to the next channel |
| PutObject.BroadcastRun.BroadcastStream | src/storage/multi_backend/put_object.rs:174-236 | Ends in a reachable returned state; returns the source's error if there is one and otherwise, in the order of the backends, the ETag of the whole source or an error that this very backend raised |
| PutObject.BroadcastStreamToBackends | src/storage/multi_backend/put_object.rs:174-236 | On in-memory backends: a backend whose result is Ok holds the concatenated chunks, stamped with its clock, and nothing else of it changed; one whose result is an error raised that error and is unchanged |
| PutObject.CollectEtags | src/storage/multi_backend/put_object.rs:75-97 | Ok if and only if all backends succeeded, then the primary's ETag; otherwise the first failing backend, by index, and its error |
| PutObject.PutObjectMultiSync | src/storage/multi_backend/put_object.rs:55-98 | Ok: every backend holds the concatenated chunks, nothing else changed, and the ETag is theirs; source error: returned, and no backend changed; backend error: the named backend raised the named error and is unchanged, each other one has the new object or nothing of it |
| DeleteObject.CheckDeletes | src/storage/multi_backend/delete_object.rs:53-66 | Ok if and only if all backends deleted; otherwise the first failing backend, by index, and its error |
| DeleteObject.DeleteObjectMultiSync | src/storage/multi_backend/delete_object.rs:30-67 | In every completion order the key, and only the key, is gone from every in-memory backend |
| StreamBody.TwoStageFifo | src/storage/s3.rs:33-76 | Frames read, second channel, the item in the pump's hand and first channel concatenate to exactly what was sent; each frame read holds the bytes of the chunk, or the error, that was sent in its place; at most 513 items are in flight; the end is told only after everything sent was read |
| RemoteBackend.NextCoupled | src/storage/s3.rs:37-49 | Every step of a broadcast with any set of remote backends, of their pumps and of their clients keeps, for each of them, what was put into its pipe equal to what the producer has passed on to it |
| RemoteBackend.RemoteDelivery | src/storage/s3.rs:33-76 | For any set of remote backends, in every reachable state, failing sources included, the frames read at each hold the bytes of the source's first chunks in order, and after all of them its error; while the client is there frames, both channels and the pump's hand are what was passed on; told the end, it has read everything; put_object answers Ok only with all chunks read and no fault |
| RemoteBackend.RemoteSeesFault | src/storage/s3.rs:39-47 | At each remote backend a client told the end has read an error frame if and only if the source failed; it is then the last frame and carries the source's error |
| RemoteBackend.RemoteFailureCause | src/storage/multi_backend/put_object.rs:193-197 | A remote backend has failed only with the error that its own put_object answered |
| RemoteBackend.StepWithout | src/storage/multi_backend/put_object.rs:202-233 | To the other backends every step is a step of a broadcast whose remote backends gave up at once, or no step |
| RemoteBackend.OthersUnaffected | src/storage/multi_backend/put_object.rs:185-224 | Whatever the remote backends, their pumps and clients do, every other backend has exact delivery |
| RemoteProgress.NeverStuck | src/storage/multi_backend/put_object.rs:207-233 | With any set of remote backends a reachable state is finished or has a step it can take without any backend giving up or client going away |
| RemoteProgress.MeasureFalls | src/storage/s3.rs:37-49 | Every step of producer, tasks, pumps, clients and put_object strictly lowers a measure of what is left for them to do |
| RemoteProgress.EveryRunEnds | src/storage/s3.rs:37-49 | No schedule is longer than an explicit bound in the number of chunks and backends |
| RemoteProgress.CanFinish | src/storage/multi_backend/put_object.rs:223-235 | From every reachable state some schedule finishes the broadcast with no further failure of any backend |
| RemoteProgress.GentleOutcome | src/storage/multi_backend/put_object.rs:223-235 | When a broadcast without failures of its own has finished, every remote backend has stored, its client having read the bytes of every chunk in order, if the source did not fail, and has failed otherwise |
| StreamBody.StreamBody.ReadStream | src/storage/s3.rs:37-42 | The pump loop's read is the pipe's step: it takes the chunk's bytes or the error in hand, and ends the loop at the end of the stream |
| StreamBody.StreamBody.WriteChannel | src/storage/s3.rs:44-47 | The pump loop's write is the pipe's step; a dropped reader ends the loop |
| StreamBody.StreamBody.PollFrame | src/storage/s3.rs:61-76 | Pending exactly when nothing is ready; a frame holds the bytes or the error of the next item that was sent; the end comes only after all of it |
| MultiSync.FailingSourceWritesNothing | src/storage/multi_backend/put_object.rs:213-218 | With any clients and schedule, no step of a put whose source fails changes any store, before or after the put has returned |
| MultiSync.ReplicasFollowReference | src/storage/multi_backend/put_object.rs:55-98 | If operations on a key did not overlap, whatever happened on other keys, every replica agrees in every reachable state with the map of successful operations on that key, when it has nothing in progress and its last operation reported no backend failure |
| MultiSync.InMemoryReplicasEqual | src/storage/multi_backend/delete_object.rs:30-67 | As above the replicas hold the reference map's data under the key, with metadata equal up to the time stamp; if no backend fails on the key, it is never exempted as one whose last operation failed |
| MultiSync.PutAnswer | src/storage/multi_backend/put_object.rs:73-97 | In any run of the concurrent system a put answers Ok if and only if every backend stored, with the hash of the concatenated chunks; a source error is returned as it is; if operations on its key did not overlap, all replicas hold the chunks when it answers Ok |
| MultiSync.PartialFailure | src/storage/multi_backend/put_object.rs:83-90 | After a put or delete, neither of which is rolled back, the replicas agree on its key, whatever happened on others, if and only if all backends applied it, none did, or it leaves what they held before |
| MultiSyncAnswers.PutError | src/storage/multi_backend/put_object.rs:76-92 | In the concurrent system the error of a put whose source does not fail names the first backend that failed, with an error which that backend raised for this put; all before it have stored |
| MultiSyncAnswers.DeleteAnswer | src/storage/multi_backend/delete_object.rs:53-66 | In the concurrent system a delete answers Ok if and only if every backend deleted, and otherwise names the first that failed, with an error it raised for this delete |
| MultiSyncAnswers.FinishStores | src/storage/in_memory.rs:106-121 | When a backend ends a put it holds the whole source with its length, ETag, content type and time, and nothing else has changed on any backend |
| MultiSyncConvergence.NextCarried | src/storage/multi_backend/put_object.rs:185-233 | A step that is safe for a key keeps: everything in flight for the key leaves the same, and each backend holds that or is due for it; an effective start sets what it is |
| MultiSyncConvergence.SafeRunsConverge | src/storage/multi_backend/put_object.rs:55-98 | If on a key no backend fails and each effective start leaves what everything in flight for it leaves, then in every reachable state, whatever happens on other keys, all replicas agree on the key once nothing is in flight for it |
| MultiSyncConvergence.LastStartDecides | src/storage/multi_backend/put_object.rs:55-98 | After any run whatever, such a start ends, if no backend fails on its key from then on, with every replica holding its effect |
| MultiSyncConvergence.DisciplinedIsSafe | src/storage/multi_backend/delete_object.rs:30-67 | Operations that wait for the earlier ones on their key to return are safe for the key |
| MultiSyncOverlap.OverlapCanDiverge | src/storage/multi_backend/put_object.rs:185-233 | After any run on several backends: a start that leaves something else than an operation in flight for its key can end, without a failure or further start, with nothing in flight, both operations returned, successfully if none had failed before, and two replicas that differ |
| MultiSyncOverlap.SafeStartExactly | src/storage/multi_backend/put_object.rs:185-233 | After any run on several backends a given delete, or put whose source does not fail, is safe to start, that is every way to carry its key on without failure leaves the replicas agreeing, if and only if everything in flight for the key leaves what it leaves |
| MultiSyncOverlap.FailingPutIsSafe | src/storage/multi_backend/put_object.rs:213-218 | A put whose source fails is safe to start whatever is in flight, where the runs before were safe for the key |
| MultiSyncOverlap.SafeExactlyWhenNothingInFlight | src/storage/multi_backend/delete_object.rs:30-51 | After any run on several backends, with any failures and overlaps, all deletes and effective puts of a key are safe to start if and only if nothing is in flight for it |
| AsyncReplication.NextInv | src/storage/multi_backend/put_object.rs:100-170 | Every client request and every background step keeps what ties the stores, the log of writes and the jobs together |
| AsyncReplication.Provenance | src/storage/multi_backend/put_object.rs:121-139 | In every interleaving, what a secondary holds under a key was the primary's object under that key at an earlier point of the run |
| AsyncReplication.BackgroundWritesAreFresh | src/storage/multi_backend/put_object.rs:34-52 | A secondary's key changes only by a delete job of that key, or by a put's task that writes data of a write to that key not older than the put |
| AsyncReplication.ReplayLast | src/storage/multi_backend/put_object.rs:42-51 | Under each key the primary holds what the last write to that key left |
| AsyncReplication.ClientSees | src/storage/multi_backend/put_object.rs:39-51 | Each request's answer and effect: a failed put or delete is answered with its error and writes nothing, a successful one is logged, a get returns the data of the last write to its key or NoSuchKey |
| AsyncReplication.RefinesSequentialStore | src/storage/multi_backend/get_object.rs:19-26 | With primary-only reads all replies of every interleaving equal those of one sequential map given the same requests |
| AsyncConvergence.NextCarried | src/storage/multi_backend/put_object.rs:121-139 | A step that is safe for a key keeps: the primary's value is what everything in flight for the key leaves, and each secondary holds it or has a job due that brings it |
| AsyncConvergence.SafeRunsConverge | src/storage/multi_backend/put_object.rs:101-170 | If on a key no backend fails and each write leaves what everything in flight for it leaves, then in every reachable state, whatever happens on other keys, all backends agree on the key once its jobs are over |
| AsyncConvergence.LastWriteDecides | src/storage/multi_backend/put_object.rs:34-52 | After any run whatever, such a write ends, if no backend fails on its key from then on, with every backend holding its effect once the jobs on the key are over |
| AsyncFailures.FailedReplication | src/storage/multi_backend/put_object.rs:136-168 | Failed background operations are never tried again: after a write that found nothing in flight, a secondary holds its effect if some task of the key has brought it, and otherwise exactly what it held before; it agrees with the primary if and only if it was served or held the same already; once the jobs are over only a secondary where the write's own job failed is left out |
| AsyncDivergence.UnsafeWriteCanDiverge | src/storage/multi_backend/delete_object.rs:69-119 | After any run: a write that leaves something else than a job in flight for its key can be followed by background steps alone, none failing, until its jobs are over and a secondary disagrees |
| AsyncDivergence.SafeWriteExactly | src/storage/multi_backend/put_object.rs:101-170 | After any run a given write is safe, that is every way to carry its key on without failure leaves the replicas agreeing, if and only if everything in flight for the key leaves what it leaves |
| AsyncDivergence.SafeExactlyWhenNothingInFlight | src/storage/multi_backend/delete_object.rs:14-28 | In every reachable state, whatever failed or overlapped before, all writes to a key are safe if and only if nothing is in flight for it |
| ReadHelpers.FallbackOutcome | src/storage/multi_backend/utils.rs:19-50 | The primary's answer if it is a success or not-found; otherwise the success of the lowest-numbered backend that has one, and not-found if none has |
| ReadHelpers.RaceAllBackends | src/storage/multi_backend/utils.rs:89-112 | For the given completion order the first completion that is a success or not-found, a not-found winning over a later success; without one the last error, and the default error only without backends |
| ReadHelpers.RaceExactly | src/storage/multi_backend/utils.rs:89-112 | Over all completion orders the possible answers are exactly the successes and not-found answers if there are any, otherwise exactly the backends' errors; the default error only without backends |
| ReadHelpers.VerifyAllConsistentEtag | src/storage/multi_backend/utils.rs:149-195 | Ok if and only if every backend succeeded with one ETag, then the primary's own result; otherwise which check failed, with the number of successes |
| ReadHelpers.VerifyAllSucceed | src/storage/multi_backend/utils.rs:231-254 | Ok if and only if every backend succeeded, with the primary's result, so the unwrap never fails; otherwise the first failing backend |
| ListConsistency.ListAllConsistent | src/storage/multi_backend/list_objects.rs:104-198 | Ok if and only if the check passes for every backend, with the primary's listing; otherwise the first backend that failed, or what is wrong at the first backend that mismatches: its length, or its first entry whose key the primary does not list or lists with another ETag |
| ListConsistency.ConsistentIsEquality | src/storage/multi_backend/list_objects.rs:133-189 | For listings with distinct keys, equal length and one-way inclusion in the primary's map mean equal sets of (key, ETag) pairs, and conversely |
| ListConsistency.ListingCheckIsExact | src/storage/multi_backend/list_objects.rs:104-198 | The whole check passes if and only if every backend succeeded with the primary's set of (key, ETag) pairs |
| ListConsistency.EtagMapExactly | src/storage/multi_backend/list_objects.rs:136-140 | The map built from the primary's list has a key if and only if it is listed, with the ETag of its last entry |
| ReadModes.AnswerOutcome | src/storage/multi_backend/get_object.rs:19-76 | Fallback: the primary's answer unless it is a real error, then the object of the lowest-numbered backend that has it, and NoSuchKey only if all failed. Race: the first completion that has the object or says NoSuchKey, every earlier one being another error, else the last error. All consistent: the primary's object if and only if all return one ETag |
| ReadModes.GetObject | src/storage/multi_backend/get_object.rs:7-76 | What GET answers in each mode has the outcome above for the caller |
| ReadModes.HeadObject | src/storage/multi_backend/head_object.rs:6-76 | HEAD, with its hand-written fallback loop, answers as GET's helpers do, and so has the same outcome in every mode |
| ReadModes.HeadOthersIsFirstOk | src/storage/multi_backend/head_object.rs:37-48 | The hand-written loop and the helper's loop find the same answer |
| ReadModes.ReadModesAgree | src/storage/multi_backend/get_object.rs:11-76 | When replicas agree on a key, all modes of GET and HEAD in every completion order give the same data and metadata but for time stamps; for an absent key all but the all-consistent mode say NoSuchKey |
| ReadModes.AllConsistentDetectsDivergence | src/storage/multi_backend/utils.rs:174-189 | With ETags that tell data apart, an all-consistent GET succeeds if and only if every backend answers and all hold the same data |
| ReadModes.MultiSyncReadsReference | src/storage/multi_backend/get_object.rs:11-76 | Where operations on a key did not overlap, failures included and whatever happens on other keys, a GET or HEAD in any mode of the key reads the reference map when it has nothing in progress and is not dirty |
| RegularReads.GetIsRegular | src/storage/multi_backend/get_object.rs:11-76 | With each backend answering in its own state of the run or failing, and any writes of the key, overlaps and failures during the read, a GET in any mode and completion order returns what the reference map held when it began or what a put in progress during the read leaves, and denies the key only if the map had none, a delete was in progress, or every backend failed |
| ReadModes.ListObjects | src/storage/multi_backend/list_objects.rs:8-198 | Fallback: any error of the primary leads to the first backend that lists, and all failing is an internal error. Race: the first completion that lists, else the last error. All consistent: the primary's listing if and only if every backend lists as many objects with the same ETags, otherwise the first failing backend or a mismatch |
| ReadModes.ListModesAgree | src/storage/multi_backend/list_objects.rs:8-198 | When replicas agree under the prefix, every mode lists the same entries in the same order but for time stamps, for any limit, hash-map iteration and completion order |
| ListDivergence.SortedPairsUnique | src/storage/in_memory.rs:69-72 | Sorted listings, cut or not, have the same set of (key, ETag) pairs if and only if they are equal entry by entry |
| ListDivergence.SortedCheckIsPointwise | src/storage/multi_backend/list_objects.rs:104-198 | For sorted listings the all-consistent check passes if and only if every backend answered and all listings are equal entry by entry in key and ETag |
| ListDivergence.ListDetectsDivergence | src/storage/multi_backend/list_objects.rs:133-189 | With ETags that tell data apart and any limit, an all-consistent LIST succeeds if and only if every backend answers, all name the same first keys with the prefix, and all hold the same data under them |
| ListDivergence.LimitHidesDivergence | src/storage/multi_backend/list_objects.rs:133-189 | For every store with at least as many matching keys as the limit there is another that differs from it past the limit and whose listing is cut to the same entries |
| ListDivergence.NothingMissedExactlyBelowLimit | src/storage/multi_backend/list_objects.rs:133-189 | No store that passes the check can differ from the primary's under the prefix if and only if the primary has fewer matching keys than the limit, or there is no limit |
| PrimaryByLatency.MedianByCounting | src/storage/multi_backend/mod.rs:142-153 | The p50 is a sample, and the only number with at most half of the samples below it and more than half not above it |
| PrimaryByLatency.P50Exactly | src/storage/multi_backend/mod.rs:99-153 | A backend has a p50 if and only if one of its requests succeeded, and it is the latency of a successful request with at most half of the successful ones faster and more than half not slower |
| PrimaryByLatency.Collect | src/storage/multi_backend/mod.rs:101-125 | Each latency is collected as often as a successful request took it, and failed requests not at all |
| PrimaryByLatency.SortedHeadIsChoice | src/storage/multi_backend/mod.rs:170-191 | The head of the stably sorted candidates is the first of the backends with the lowest p50, in terms of the requests themselves |
| PrimaryByLatency.DeterminePrimaryByLatency | src/storage/multi_backend/mod.rs:80-194 | A valid index; every backend with a successful request has a p50 not below the chosen one's, and above it if its index is lower; 0 when no request succeeded |
| CanonicalQuery.CanonicalizeQueryString | src/auth/signature.rs:220-250 | For every string the parts of the result are those of the query, each with a '=' added if it has none, in ascending order by name and then value; exactly the queries with the same parameters as a multiset have this result |
| CanonicalQuery.ParamsOfCanonical | src/auth/signature.rs:220-250 | The parameters of a canonical query are the query's own, sorted |
| CanonicalQuery.CanonicalIffSameParams | src/auth/signature.rs:220-250 | Two query strings have one canonical form if and only if their parameters are equal as multisets |
| CanonicalQuery.CanonicalIdempotent | src/auth/signature.rs:220-250 | Canonicalising twice is canonicalising once, for every string |
| CanonicalRequest.BuildCanonicalHeaders | src/auth/signature.rs:253-274 | For each signed name that the request has as text, in signing order, the name as signed, a colon, the trimmed value and a newline, and nothing else |
| CanonicalRequest.SplitOfCanonical | src/auth/signature.rs:182-215 | When no field holds a newline, splitting at newlines gives in turn method, path, canonical query, a line for each signed header the request has, an empty line, the signed names joined by semicolons, and the payload hash |
| CanonicalRequest.CanonicalDetermines | src/auth/signature.rs:182-215 | A canonical request determines method, path, query parameters as a multiset, header lines, signed-header list and payload hash, whatever names the client signs |
| CanonicalRequest.SplitOfStringToSign | src/auth/signature.rs:277-286 | The lines of the string to sign are the algorithm, the date, the scope and the hash of the canonical request |
| CanonicalRequest.StringToSignDetermines | src/auth/signature.rs:277-286 | With an injective hash the string to sign determines the date, the scope and the canonical request |
| Authorization.ParseAuthorizationHeader | src/auth/signature.rs:20-78 | Every rejection is an InvalidRequest; an accepted header has the scheme, and the last part for each of the three fields holds the record's key id and scope, signed headers, and signature |
| Authorization.ParsedExactly | src/auth/signature.rs:24-77 | Which header is rejected with which message, checked in this order: no scheme, no Credential, no SignedHeaders, no Signature, a credential without five parts; and the record any other header gives, from the last part for each field |
| Authorization.SchemeRepeated | src/auth/signature.rs:30 | A repeated scheme makes no difference |
| Authorization.ParseOfUsualForm | src/auth/signature.rs:21-22 | The documented form of the header parses to its fields |
| Authorization.ParseOfPrint | src/auth/signature.rs:20-78 | Printing a record's fields in any of the six orders, with any white space around them, parses back to the record |
| Authorization.ParsedIsPrintable | src/auth/signature.rs:30-77 | Whatever parses has a four-part scope and no stray delimiter or trailing white space in a field |
| Authorization.ParseableIffPrintable | src/auth/signature.rs:20-78 | The records that some header parses to are exactly the printable ones |

## What the statements rest on

- A backend is the contract above: its put reads its stream to an end and stores all of it at one instant,
  or gives up at any time, which drops its receiver, and stores nothing.
- The backend list is not empty and the primary's index is inside it, as src/main.rs:132-166 establishes.
  `MultiSyncOverlap` speaks of several backends, the only case in which the engine is built.
- The ETag is a parameter, a function of the data. It is assumed injective only in
  `AllConsistentDetectsDivergence`, `ListDetectsDivergence` and `NothingMissedExactlyBelowLimit`, and the
  hash of a request only in `StringToSignDetermines`.
- The HTTP client inside a remote put_object stops reading at the end of the body and answers Ok only if it
  was told the end and read no error frame (`RemoteBackend.Enabled`); the `Stored` part of `RemoteDelivery`
  and `GentleOutcome` rest on it.
- In `CanonicalDetermines` the names of the request's own headers hold no colon (section 5.6.2 of RFC 9110),
  the signed list is what splitting a string at semicolons gives, and no field holds a newline. Signed names
  may hold a colon.
- A header sent several times is represented by its first value, the one the code reads; GET's bodies are the
  stored data, whose delivery as a stream is in `InMemoryStorage.GetObject`.
- Strings are sequences of characters compared lexicographically.
- In the concurrent systems a client write takes effect on the primary, or on one backend, in one step. An
  operation of `MULTI_SYNC` counts as in progress until it has returned, and the reference map takes
  operations in the order of their returns.

## Left out

- HTTP routing, handlers, XML, tracing and the command line: plumbing around the engine.
- AWS SDK calls and all of `S3Backend` but `StreamBody`. It does not meet the backend contract: it reports
  every GET and HEAD failure as NoSuchKey (src/storage/s3.rs:263-266, 305-308) and a failed delete as
  success (src/storage/s3.rs:367-371), so `SafeRunsConverge` and `ReplicasFollowReference` do not speak of it.
- SHA-256, HMAC and date parsing: cryptography and a foreign library; the 15-minute window is one branch.
- Configuration files: used only as the origin of the two preconditions above.
- Task panics, runtime shutdown, and cancelling a broadcast midway: dropping the senders early looks like a
  normal end of stream to the backends, and no delivery claim covers it.
- The modes of `head_bucket`: the same helpers with an empty answer.
- Measuring latency and the clock: samples and time stamps are inputs.
- Rollback of a failed multi-sync put, and convergence of overlapping writes to one key: the code has
  no rollback and does not converge in general, as `PartialFailure`, `OverlapCanDiverge` and `UnsafeWriteCanDiverge` show; exactly
  which writes are safe is in `SafeStartExactly` and `SafeWriteExactly`.
- The two write modes as whole systems are modelled on values, as state machines over maps, because their
  tasks interleave; the imperative form is kept for one put (`BroadcastRun`) and one delete. Logging of
  background outcomes is not modelled.
- Replicas in `AsyncReplication` are compared without metadata, and a background GET is one read of the
  primary, delivered in any chunking or cut off by an error at any point.
