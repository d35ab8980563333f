# IICP client: a verified model

This project models the parts of the IICP Python client, provider node and relay that carry real
state or protocol behaviour, and proves what their design relies on.

Each component has one module. Its operations appear twice: as a method in the code's own form (a
loop over a stream, a class whose fields are updated in place), proved equal to a function of the
old state, and as that function, about which the properties are proved. Threads, processes, tasks,
peers and crashes are actions of a transition system; a theorem about a run quantifies over every
sequence of actions. Clocks, randomness, the network, ticket and signature checks and the outcome of
handlers are parameters.

| module | what it models |
|---|---|
| `Wire`, `Streams`, `NativeSession`, `FrameReaders` | native frames, the server's session loop, the three frame readers |
| `Lifecycle`, `RelayQueue` | the streaming lifecycle: codec, validator, emitter, and the relay's bounded queue between them |
| `HttpBody`, `HttpBodyFaults` | the HTTP task-body reader (sections 7.1 to 7.1.2 of RFC 9112), and what it refuses |
| `DispatchAdmission` | the provider's durable single-use table |
| `Sorting`, `TrustBundles`, `TrustStore`, `TrustStoreProcesses` | canonical trust bundles, the file store, and competing processes with crashes |
| `TicketVerifier`, `DuplicateGuards`, `RateLimits` | ticket verification with its replay cache, the duplicate guards, the fixed-window limiters |
| `Metrics`, `Slots`, `TaskRun`, `RelayBind` | the acknowledged metrics batch, task slots and handlers across threads, one task's exits, relay binds |
| `Capability`, `CapabilityCodec` | the capability matcher, and the parser and printer of a variant |
| `Retry` | candidate selection and the submit loop |

## What the code does not promise

The proofs found places where the code falls short of what one would expect of it. Each is stated
with the exact condition under which it does hold, or with a run that shows it fails.

- `commit` can write a state that `load` refuses: a bundle with an unknown key state, two keys of one
  id or more than 4 MiB of text is written all the same (`TrustStore.CommitLoadable`,
  `TrustStore.UnloadableInstall`).
- A lock file whose owner died, whose acquisition raised after creating it, or whose release raised
  before removing it, stays for good; in every other reachable state the lock can come free (`TrustStoreProcesses.LockComesFreeIff`,
  `TrustStoreProcesses.OrphaningRuns`).
- Single use holds exactly while no clock skew exceeds the retention by more than a second
  (`DispatchAdmission.SingleUseThreshold`).
- The reduced availability window can be overrun, because checking and counting are separate steps: it
  holds exactly when it is closed, or no smaller than the semaphore or the number of threads
  (`Slots.WindowHoldsIff`).
- A handler that outlives its thread's 60-second wait runs on without a permit, and one for a native or
  relayed call never takes any: handlers stay within `max_concurrent` in every run exactly when there are
  none of these, or spare permits make up for them (`Slots.HandlersCappedIff`).
- A task is counted twice in the metrics when writing its response raises, and not at all when its
  handler raises a plain `RuntimeError` or a `SystemExit` (`TaskRun.CountedExactly`).
- A relay session whose acknowledgement cannot be written stays registered, since that write precedes
  the cleanup's `try`. Nothing is left behind exactly when acknowledgements cannot fail, and enough of
  these entries lock every other worker out (`RelayBind.NothingLeakedIff`, `RelayBind.FailuresLockOut`).
- The node takes a batch for acknowledged when a directory that has not taken it answers without the
  acknowledgement field; the totals agree throughout exactly when no batch is taken off the node before
  the directory has it (`Metrics.TotalsAgreeIff`, `Metrics.DroppedBatchIsLost`).
- With `max_retries` of zero or less nothing is posted, and `None` is raised, a `TypeError`, unless a
  candidate's preparation raised before
  (`Retry.NoneIsRaisedIff`).
- One supporting variant with an unreadable deadline makes the whole match raise, however many others
  are eligible (`Capability.MatchIsExact`, `Capability.AddingNeverRefuses`).
- Re-encoding a decoded frame drops a non-zero reserved byte (`Wire.ReencodeIffReservedZero`).

## Model

| member | source | states |
|---|---|---|
| `Wire.DecodeEncode` | src/iicp_client/iicp_tcp.py:109-139 | a frame encodes exactly when its version and size allow; decoding it with any bytes behind it gives the frame and its exact length |
| `Wire.ReencodeIffReservedZero` | src/iicp_client/iicp_tcp.py:109-139 | re-encoding a decoded frame gives the consumed bytes back exactly when the reserved byte is zero |
| `Wire.DecodeIgnoresTail` | src/iicp_client/iicp_tcp.py:124-139 | a successful decode depends on no byte past what it consumed |
| `Wire.LengthRoundTrip` | src/iicp_client/iicp_tcp.py:113-122 | the four big-endian length bytes denote the length they were packed from |
| `Wire.EncodedLayout` | src/iicp_client/iicp_tcp.py:109-122 | the bytes on the wire: IICP, version, type, flags, zero, and the payload's length as a big-endian number |
| `Wire.TypesExactly` | src/iicp_client/iicp_tcp.py:57-75 | the disposition of every type byte, number by number |
| `Wire.FaultsOfCodec` | src/iicp_client/iicp_tcp.py:109-139 | a frame that cannot be encoded, is cut off anywhere, or has another byte in its magic or version gets the error of that fault |
| `NativeSession.Fill` | src/iicp_client/iicp_tcp.py:413-443 | the buffer is always the stream between two positions; filling stops with enough bytes or at the end of the stream, and overshoots by less than one read |
| `NativeSession.NextFrame` | src/iicp_client/iicp_tcp.py:412-450 | however the stream is cut into reads, one round finds exactly the frame that opens the rest of the stream, or none; the buffer never passes 2^24 + 12 + 4095 bytes |
| `NativeSession.Session` | src/iicp_client/iicp_tcp.py:397-460 | for every fragmentation the session dispatches exactly the frames of the whole-stream parser that handshake and handlers let through; at most 4095 bytes are carried over |
| `NativeSession.DispatchedShape` | src/iicp_client/iicp_tcp.py:450-486 | INIT is dispatched first and only first, every dispatched type is stable, and no frame follows one after which the session closed |
| `NativeSession.AdmittedStops` | src/iicp_client/iicp_tcp.py:450-460 | what is dispatched is a prefix of the parsed frames, ended early only by a frame out of turn or a close |
| `NativeSession.EndsExactly` | src/iicp_client/iicp_tcp.py:450-486 | nothing is dispatched behind a CLOSE, nor behind an INIT, DISCOVER, CALL or PING whose code ended the session, and the session stops short of the parsed frames only there or at a frame out of turn |
| `NativeSession.EndsUniquely` | src/iicp_client/iicp_tcp.py:450-486 | these conditions leave one possibility for what a session dispatches |
| `NativeSession.DispatchGrows` | src/iicp_client/iicp_tcp.py:397-460 | more bytes never change what was already dispatched |
| `NativeSession.ParseUndoesEncode` | src/iicp_client/iicp_tcp.py:109-139 | any sequence of encoded stable frames, followed by a piece that opens no frame, parses back to those frames |
| `NativeSession.ConversationDispatched` | src/iicp_client/iicp_tcp.py:397-460 | a conforming conversation, sent as bytes, is dispatched whole |
| `FrameReaders.ClientReadFrame` | src/iicp_client/iicp_tcp.py:957-973 | the client's reader returns the specified cut or the right error, and stops right behind the frame |
| `FrameReaders.RelayReadFrame` | src/iicp_client/relay_session.py:654-667 | the relay's reader returns the specified cut or nothing, and stops right behind the frame |
| `FrameReaders.ReadersAgree` | src/iicp_client/relay_session.py:654-667 | server and client cut every stream alike; the relay differs exactly on a complete frame whose type is not stable |
| `FrameReaders.FaultIsNamed` | src/iicp_client/iicp_tcp.py:957-973 | a written frame that is cut off anywhere, or has another byte in magic, version or type, is refused by client and relay with the fault's own error |
| `FrameReaders.OversizeIsNamed` | src/iicp_client/relay_session.py:654-667 | a header that announces more than 16 MiB is refused by all three readers |
| `FrameReaders.StreamsCutAlike` | src/iicp_client/iicp_tcp.py:957-973 | whole streams are cut at the same points by all three, the relay included exactly when it meets only stable types |
| `FrameReaders.CutsAreFrames` | src/iicp_client/iicp_tcp.py:412-450 | those cuts are the frames the session finds |
| `FrameReaders.RelayFramesRead` | src/iicp_client/relay_session.py:66-70 | the relay's own encoder agrees with the codec, and every reader that takes the type reads its frames back |
| `Lifecycle.DecodeEncodeResponse` | src/iicp_client/iicp_tcp.py:249-286 | the reader of RESPONSE payloads undoes the writer for every event |
| `Lifecycle.WireKeys` | src/iicp_client/iicp_tcp.py:249-286 | the keys under which version, ids, status, flags and stage are sent |
| `Lifecycle.OptionalKeys` | src/iicp_client/iicp_tcp.py:249-286 | result, error and tokens are sent under their keys exactly when there is one |
| `Lifecycle.TextsSent` | src/iicp_client/iicp_tcp.py:249-286 | the names and error texts sent, and their defaults |
| `Lifecycle.NativeResponseSequence.Accept` | src/iicp_client/native_response_sequence.py:28-64 | one frame is judged by the ordered checks, and the progress advances exactly on acceptance |
| `Lifecycle.NativeResponseSequence.Finish` | src/iicp_client/native_response_sequence.py:66-68 | finishing succeeds exactly after a terminal frame |
| `Lifecycle.ValidateIffWellFormed` | src/iicp_client/native_response_sequence.py:28-68 | the validator accepts a history exactly when it carries the call's identities, the numbers 0, 1, 2, ..., allowed names, and a terminal frame nowhere but at its end |
| `Lifecycle.AcceptExtends` | src/iicp_client/native_response_sequence.py:28-64 | a further frame is accepted exactly when the longer history is well formed |
| `Lifecycle.NamesOfStatus` | src/iicp_client/native_response_sequence.py:28-64 | the names that each status may carry |
| `Lifecycle.DriftIsNamed` | src/iicp_client/native_response_sequence.py:28-64 | one thing changed in a frame that would be accepted is refused under its own code |
| `Lifecycle.OnStreamCall` | src/iicp_client/iicp_tcp.py:644-716 | for every behaviour of the handler the payloads written are those of the specified events, numbered from zero |
| `Lifecycle.WrittenIs` | src/iicp_client/iicp_tcp.py:644-716 | the events written are the handler's partial events one by one, then its terminal event, or a backend error if it raised or gave one that cannot be sent, or the note that it stopped early |
| `Lifecycle.Emit` | src/iicp_client/iicp_tcp.py:661-683 | an event is written and numbered, or refused after the terminal one, for an unknown status or a failing encoding, changing nothing |
| `Lifecycle.ReceivedIsDecoded` | src/iicp_client/iicp_tcp.py:976-1000 | decoding what was emitted gives the frames the client is said to receive |
| `Lifecycle.ExactlyLastTerminal` | src/iicp_client/iicp_tcp.py:644-716 | exactly the last written event is terminal, whatever the handler does |
| `Lifecycle.EmitterSatisfiesValidator` | src/iicp_client/iicp_tcp.py:644-716 | the client accepts the whole of an emitted call, in order and ending in its one terminal frame, exactly when every written event's name is one of its status |
| `Lifecycle.AllowedNamesAccepted` | src/iicp_client/iicp_tcp.py:644-716 | so a handler that gives only allowed names is always accepted, and finishing succeeds |
| `RelayQueue.PendingStream.OnStreamResponse` | src/iicp_client/relay_session.py:169-184 | an arriving frame is validated and queued, or the queue is drained and poisoned on a violation or when it is full |
| `RelayQueue.PendingStream.Consume` | src/iicp_client/relay_session.py:135-167 | one step of the consuming generator takes an item, resumes, or leaves, as specified |
| `RelayQueue.StepKeepsInv` | src/iicp_client/relay_session.py:135-184 | every arrival and every consumer step keeps the queue invariant |
| `RelayQueue.QueueNeverHidesLoss` | src/iicp_client/relay_session.py:135-184 | over every interleaving at most 32 items are queued; delivered plus queued frames are exactly the accepted ones or an error heads the queue; a consumer that finished was given the whole history |
| `RelayQueue.PoisonIsFinal` | src/iicp_client/relay_session.py:255-301 | once an error heads the queue, a consumer that waits or is busy with a frame that is not terminal is delivered nothing more, never finishes normally, and keeps the error before it |
| `RelayQueue.PoisonedOnlyBy` | src/iicp_client/relay_session.py:169-184 | a clean queue is poisoned exactly by an arrival that makes the history ill-formed, or by one that finds 32 items, and holds that failure alone |
| `RelayQueue.ConformingIsDelivered` | src/iicp_client/relay_session.py:135-184 | whatever the interleaving, the frames of an emitter that gives allowed names reach a consumer that never lets 32 stand whole, in order and up to the terminal one |
| `HttpBody.BinaryReader.ReadExact` | src/iicp_client/_http_resource.py:94-98 | exactly the next bytes, or an error exactly when the body ends too early |
| `HttpBody.ReadTrailers` | src/iicp_client/_http_resource.py:115-122 | the loop accepts exactly the trailer sections of the specification and stops right behind them |
| `HttpBody.ReadChunk` | src/iicp_client/_http_resource.py:104-132 | one chunk is read as specified, and the body never grows past the cap before its terminator is checked |
| `HttpBody.ReadChunked` | src/iicp_client/_http_resource.py:101-132 | the decoder terminates, returns what the specification computes, stops where it says, and never holds more than the cap |
| `HttpBody.ReadBudget` | src/iicp_client/_http_resource.py:101-132 | a successful read uses at most 8196 bytes for each body byte and 16387 more, and its body is within the cap |
| `HttpBody.BudgetIsTight` | src/iicp_client/_http_resource.py:101-132 | for every body within the cap some stream uses that whole budget |
| `HttpBody.TrailersBudget` | src/iicp_client/_http_resource.py:115-122 | the trailers and the final CRLF take at most 8194 bytes |
| `HttpBody.ChunkedRoundTrip` | src/iicp_client/_http_resource.py:101-132 | every body within the cap, in every split, with its sizes printed in hexadecimal in letters of either case and behind any zeros, and with any extension and trailer within the limits, is read back, and the reader stops exactly after the final CRLF |
| `HttpBody.SpellingIsRead` | src/iicp_client/_http_resource.py:107-112 | a size printed in hexadecimal is read as that number |
| `HttpBody.OversizeRefused` | src/iicp_client/_http_resource.py:123-129 | a body over the cap is refused as too large, however it is split |
| `HttpBodyFaults.TruncatedRefused` | src/iicp_client/_http_resource.py:94-132 | a message that is cut off anywhere before its end is refused |
| `HttpBodyFaults.ReadIgnoresTail` | src/iicp_client/_http_resource.py:101-132 | what was read is read the same when more bytes follow |
| `HttpBodyFaults.FaultBehind` | src/iicp_client/_http_resource.py:101-132 | a fault behind any valid chunks is the reader's answer |
| `HttpBodyFaults.BadTerminator` | src/iicp_client/_http_resource.py:131-132 | chunk data not followed by a CRLF is refused |
| `HttpBodyFaults.BadHeader` | src/iicp_client/_http_resource.py:104-106 | a size line that is too long, or ends in a bare line feed, is refused |
| `HttpBodyFaults.BadSize` | src/iicp_client/_http_resource.py:107-111 | a size with a byte that can be in no hexadecimal number is refused |
| `HttpBodyFaults.NegativeSize` | src/iicp_client/_http_resource.py:112-113 | a negative size is refused |
| `HttpBodyFaults.LongTrailersRefused` | src/iicp_client/_http_resource.py:114-122 | trailers of more than 8192 bytes are refused |
| `HttpBody.FramingIsUnambiguous` | src/iicp_client/_http_resource.py:135-159 | each framing is chosen exactly under its own header condition, and a request that names both is refused |
| `HttpBodyFaults.HeadersRefused` | src/iicp_client/_http_resource.py:135-159 | each refusal of the headers under its own condition, in the order of the checks |
| `HttpBodyFaults.LengthsRefused` | src/iicp_client/_http_resource.py:82-91 | each refusal of the given lengths under its own condition |
| `HttpBodyFaults.HeaderLinesAgree` | src/iicp_client/_http_resource.py:59-68 | values joined by commas in one header line, or each in its own, are the same values |
| `HttpBodyFaults.CodingsAre` | src/iicp_client/_http_resource.py:71-79 | only identity among codings and only chunked among transfer codings, in letters of either case |
| `HttpBody.FramingsAgree` | src/iicp_client/_http_resource.py:135-159 | the same body sent chunked and sent with a length is read as the same bytes, each leaving the stream right behind what was sent |
| `HttpBody.LengthHeaderRoundTrip` | src/iicp_client/_http_resource.py:82-91 | the decimal header printed for a length within the cap selects exactly that length |
| `HttpBody.ReadTaskRequestBody` | src/iicp_client/_http_resource.py:135-159 | the request reader returns what headers and stream together specify and stops there |
| `DispatchAdmission.SqliteDispatchAdmissionStore.Consume` | src/iicp_client/dispatch_admission.py:179-227 | the ordered refusals, one insertion on admission, and nothing at all when the database fails |
| `DispatchAdmission.SqliteDispatchAdmissionStore.Transition` | src/iicp_client/dispatch_admission.py:229-256 | a row moves to a terminal state once; the errors and the unchanged cases are told apart |
| `DispatchAdmission.SqliteDispatchAdmissionStore.Cleanup` | src/iicp_client/dispatch_admission.py:258-277 | exactly as many rows go as limit and cutoff allow, none of them newer than one that stays past the cutoff, and no other row is touched |
| `DispatchAdmission.EvaluateDispatchAdmission` | src/iicp_client/dispatch_admission.py:72-100 | nothing is consumed without prior trust; a store that fails refuses; and the table changes exactly on admission |
| `DispatchAdmission.AdmittedIff` | src/iicp_client/dispatch_admission.py:179-227 | a ticket is admitted exactly when its id is well formed, it is bound to provider and intent, the clock is within its period give or take the skew, and the table does not know it |
| `DispatchAdmission.OneFaultIsNamed` | src/iicp_client/dispatch_admission.py:179-215 | one thing wrong with a ticket that would be admitted gets its own refusal |
| `DispatchAdmission.AdmissionRecords` | src/iicp_client/dispatch_admission.py:210-222 | an admission inserts the row of that ticket and touches no other |
| `DispatchAdmission.TransitionMeans` | src/iicp_client/dispatch_admission.py:229-256 | a transition moves the row to the state asked for, once; repeating it changes nothing, and each refusal has its condition |
| `DispatchAdmission.SingleUseThreshold` | src/iicp_client/dispatch_admission.py:179-277 | no run accepts an id twice exactly when no skew exceeds the retention by more than one second |
| `DispatchAdmission.SecondAcceptanceNeeds` | src/iicp_client/dispatch_admission.py:179-277 | a second acceptance needs a cleanup in between whose retention the skew exceeds by at least two |
| `DispatchAdmission.DoubleAcceptance` | src/iicp_client/dispatch_admission.py:179-277 | from two seconds on there is a run that accepts twice |
| `DispatchAdmission.RowUntilCleanup` | src/iicp_client/dispatch_admission.py:179-277 | after an acceptance its row stays, with its expiry, until a cleanup whose cutoff lies past the expiry |
| `DispatchAdmission.RowLife` | src/iicp_client/dispatch_admission.py:229-256 | while a row stays it keeps its identity, leaves "accepted" at most once and never changes a terminal state |
| `DispatchAdmission.RefusedUntilCleanup` | src/iicp_client/dispatch_admission.py:179-277 | between an acceptance and the first cleanup past its expiry every presentation of the ticket is refused and changes nothing, by a terminal state only after a transition to one |
| `TrustBundles.CanonicalTrustBundle` | src/iicp_client/dispatch_ticket_trust.py:87-110 | the canonical document: keys sorted by id, sets sorted |
| `TrustBundles.FromDict` | src/iicp_client/dispatch_ticket_trust.py:58-84 | parsing succeeds exactly for known key states and distinct ids, and files each key under its id in order |
| `TrustBundles.FieldsOfDocument` | src/iicp_client/dispatch_ticket_trust.py:87-110 | the document of a key field by field, and the default of the one that may be missing |
| `TrustBundles.CanonicalForgetsOrder` | src/iicp_client/dispatch_ticket_trust.py:87-110 | the canonical form does not depend on the order of dictionary or sets |
| `TrustBundles.CanonicalInjective` | src/iicp_client/dispatch_ticket_trust.py:87-110 | when each key is filed under its own id, equal canonical forms are exactly equal bundles |
| `TrustBundles.CanonicalRoundTrip` | src/iicp_client/dispatch_ticket_trust.py:58-110 | parsing the canonical form of such a bundle with known key states gives the bundle back |
| `TrustBundles.CanonicalParsable` | src/iicp_client/dispatch_ticket_trust.py:58-110 | the parser takes a canonical form exactly when key states are known and ids distinct |
| `TrustBundles.CanonicalStable` | src/iicp_client/dispatch_ticket_trust.py:58-110 | parsing and printing again changes nothing |
| `Sorting.SortForgetsOrder` | src/iicp_client/dispatch_ticket_trust.py:97-101 | sorting by distinct ids forgets the order of the input |
| `TrustStore.FileTrustBundleStore.LoadFile` | src/iicp_client/dispatch_ticket_trust.py:211-253 | loading finds nothing, a corrupt store, or the bundle, by the ordered checks |
| `TrustStore.FileTrustBundleStore.Commit` | src/iicp_client/dispatch_ticket_trust.py:255-298 | the file becomes the specified state exactly when the version is covered by the high-water mark |
| `TrustStore.FileTrustBundleStore.Install` | src/iicp_client/dispatch_ticket_trust.py:300-326 | each answer under its condition; the file changes only by a commit, with an expected version only over a loadable store of that version, and the lock is given back on every way out |
| `TrustStore.DecisionMeans` | src/iicp_client/dispatch_ticket_trust.py:309-325 | conflict, stale, unchanged and installed, each exactly when, and the mark that is written |
| `TrustStore.FileTrustBundleStore.Recover` | src/iicp_client/dispatch_ticket_trust.py:328-352 | recovery needs an authorization with a reason, overwrites whatever is there and never lowers the mark |
| `TrustStore.RecoveredIsLargest` | src/iicp_client/dispatch_ticket_trust.py:343-347 | the recovered mark is the largest of version, minimum and old mark, and no more |
| `TrustStore.CommitLoadable` | src/iicp_client/dispatch_ticket_trust.py:211-298 | what commit writes passes every check of load exactly when key states are known, ids distinct and the text it writes, counted byte by byte, within 4 MiB; the bundle itself comes back exactly when it was well keyed |
| `TrustStore.EmptyBundleSize` | src/iicp_client/dispatch_ticket_trust.py:255-271 | the text of an empty bundle takes 30 bytes and its state file 181 |
| `TrustStore.UnloadableInstall` | src/iicp_client/dispatch_ticket_trust.py:300-326 | an install that leaves a store which cannot be loaded |
| `TrustStoreProcesses.StepKeepsInv` | src/iicp_client/dispatch_ticket_trust.py:186-352 | every step of every process, failing reads, writes, acquisitions and releases included, keeps the lock exclusive and the loaded state current |
| `TrustStoreProcesses.HighWaterNeverDrops` | src/iicp_client/dispatch_ticket_trust.py:186-352 | with any processes, crashes, recoveries and damage, the high-water mark never goes down while the store stays loadable, and always covers the version |
| `TrustStoreProcesses.CommitIsAtomic` | src/iicp_client/dispatch_ticket_trust.py:255-298 | whatever happens next, the file holds what the writer had loaded or, after the replace, what it wrote |
| `TrustStoreProcesses.TenureIsExclusive` | src/iicp_client/dispatch_ticket_trust.py:186-209 | between its load and its write a process's view of the file stays true |
| `TrustStoreProcesses.VersionsNeverReused` | src/iicp_client/dispatch_ticket_trust.py:300-326 | under installs alone versions never go down and one version never gets a second content |
| `TrustStoreProcesses.OneWinner` | src/iicp_client/dispatch_ticket_trust.py:300-326 | over every run of installs by competing processes, of all calls that expect one version at most one writes |
| `TrustStoreProcesses.CrashInsideLocksForever` | src/iicp_client/dispatch_ticket_trust.py:186-209 | after a crash inside a call nobody enters any more and the file stays as it is |
| `TrustStoreProcesses.LockComesFreeIff` | src/iicp_client/dispatch_ticket_trust.py:186-209 | in every reachable state some continuation gives the lock back exactly when no process has died holding it, and no acquisition or release has raised with the file in place |
| `TrustStoreProcesses.HolderFinishes` | src/iicp_client/dispatch_ticket_trust.py:300-352 | a live holder gives the lock back in at most four steps of its own call |
| `TrustStoreProcesses.OrphaningRuns` | src/iicp_client/dispatch_ticket_trust.py:186-209 | three short runs that orphan the lock: enter and crash, a failing write of the lock file, and a failing release that leaves nobody holding it |
| `TicketVerifier.LocalReplayCache.Contains` | src/iicp_client/dispatch_ticket_trust.py:377-380 | asking drops exactly the ids that have expired and answers membership of the rest |
| `TicketVerifier.VerifyDispatchTicket` | src/iicp_client/dispatch_ticket_trust.py:387-446 | the verdict of the ordered checks, with a cache or without, and the cache changes only once all of them are passed |
| `TicketVerifier.AcceptedMeans` | src/iicp_client/dispatch_ticket_trust.py:387-446 | an acceptance vouches for profile, key, its state and period, issuer, audience, all bindings, the signature and the bundle version |
| `TicketVerifier.AcceptedIff` | src/iicp_client/dispatch_ticket_trust.py:387-446 | a ticket is accepted exactly when bundle, key, issuer, audience, bindings, expiry and signature are in order and its id is not in the cache unexpired |
| `TicketVerifier.RememberedUntilExpiry` | src/iicp_client/dispatch_ticket_trust.py:372-384 | an accepted id stays cached under its expiry until the clock reaches it |
| `TicketVerifier.AcceptedAtMostOnce` | src/iicp_client/dispatch_ticket_trust.py:432-446 | through one cache the same claims are accepted at most once, and another ticket of the same id only after the first has expired |
| `DuplicateGuards.DuplicateGuard.CheckAndRegister` | src/iicp_client/idempotency.py:28-44 | the call evicts, answers and registers as specified, for both guards |
| `DuplicateGuards.EvictionIsInvisible` | src/iicp_client/node.py:1109-1121 | under a clock that never goes back both guards answer as a log that never forgets |
| `DuplicateGuards.Boundary` | src/iicp_client/idempotency.py:28-44 | an id is a replay until one lifetime has passed and new afterwards; at exactly one lifetime it is new for the idempotency guard and still a replay for the nonce check |
| `RateLimits.RateLimiter.Allow` | src/iicp_client/node.py:615-631 | one request is counted, the map pruned above its threshold, and the request admitted within the limit |
| `RateLimits.RateLimiter.AllowBind` | src/iicp_client/relay_session.py:333-354 | reconnects and a limit of zero pass uncounted; everything else is counted |
| `RateLimits.PruningIsInvisible` | src/iicp_client/node.py:615-631 | both limiters answer every request as if no bucket were ever deleted |
| `RateLimits.AnswersExactly` | src/iicp_client/node.py:615-631 | from the trace alone: windows of a key open at its first request and then at the first one a window after the last opening, and a request is admitted exactly when it is among the first of its window up to the limit |
| `RateLimits.FewAreAdmitted` | src/iicp_client/relay_session.py:333-354 | whoever has made at most the limit in the last window length is admitted, however many he made before |
| `RateLimits.AtMostTwiceTheLimit` | src/iicp_client/relay_session.py:333-354 | in any closed interval of one window a key gets at most twice its limit through |
| `RateLimits.TwiceIsReached` | src/iicp_client/node.py:615-631 | for every positive limit there are requests that reach that bound |
| `Metrics.IicpNode.RecordTask` | src/iicp_client/node.py:1821-1834 | one completion is counted as succeeded or failed, with its latency when positive |
| `Metrics.IicpNode.BeginHeartbeat` | src/iicp_client/node.py:807-820 | the live counts become a batch exactly when none is outstanding and there is something to report |
| `Metrics.IicpNode.EndHeartbeat` | src/iicp_client/node.py:869-885 | a reply settles only the batch its heartbeat carried |
| `Metrics.ReplyMeans` | src/iicp_client/node.py:869-885 | exactly which replies take the pending batch off the node, and that they change nothing else |
| `Metrics.OtherIdClearsNothing` | src/iicp_client/node.py:875-879 | an acknowledgement of another id never clears anything |
| `Metrics.BeginMeans` | src/iicp_client/node.py:807-820 | a heartbeat keeps a batch that is out, and otherwise puts all live counts under a fresh one if there are any |
| `Metrics.AcknowledgedIsSettled` | src/iicp_client/node.py:807-885 | after every run the usual exchange leaves nothing pending, and everything recorded is acknowledged but for what is live |
| `Metrics.RecordedIsSum` | src/iicp_client/node.py:1821-1834 | what is recorded over a run is its completions, those that went well, and their positive latencies |
| `Metrics.Conservation` | src/iicp_client/node.py:807-885 | over every interleaving, recorded tasks equal acknowledged plus pending plus live |
| `Metrics.PendingUntilSettled` | src/iicp_client/node.py:869-885 | over every run a batch stays pending until a reply that settles it is received for a heartbeat that carried it |
| `Metrics.ExactlyOnce` | src/iicp_client/node.py:807-885 | against a directory that settles only what it has applied, its total is the acknowledged counts, or those and the pending batch: every counted completion is reported once |
| `Metrics.TotalsAgreeIff` | src/iicp_client/node.py:807-885 | for any directory, the totals agree after every prefix of a run exactly when each reply that took a batch off the node found it applied |
| `Metrics.ConformingSuffices` | src/iicp_client/node.py:869-885 | a directory that settles only what it has applied meets that condition |
| `Metrics.DroppedBatchIsLost` | src/iicp_client/node.py:869-885 | in any run, a batch taken off the node before the directory had it is applied later exactly if a request that carried it is delivered and taken, whatever else happens |
| `Metrics.DroppingRun` | src/iicp_client/node.py:869-885 | a run in which that happens: the batch is dropped and answered without the field |
| `Slots.StepAccounts` | src/iicp_client/node.py:1669-1722 | every lock and semaphore operation keeps the accounts of permits and counter |
| `Slots.SlotsAreAccounted` | src/iicp_client/node.py:1669-1876 | over every interleaving free permits and holders add up to the cap, the tasks between increment and release never exceed it, the counter counts the threads between increment and decrement, and all is restored when they are out |
| `Slots.NoPermitIsLost` | src/iicp_client/node.py:1669-1876 | from every reachable state some continuation leads all threads out, gives all permits back and takes the counter to zero |
| `Slots.TasksExactly` | src/iicp_client/node.py:1672-1722 | for every cap, number of threads and window, the most tasks that any run can have between increment and release |
| `Slots.WindowHoldsIff` | src/iicp_client/node.py:1672-1692 | the window holds in every run exactly when it is closed, or no smaller than the semaphore or the number of threads |
| `Slots.HandlersExactly` | src/iicp_client/node.py:1801-1900 | the most handlers that any run can have on the event loop when at most so many of those of HTTP tasks outlive the wait and at most so many native or relayed calls come in |
| `Slots.HandlersCappedIff` | src/iicp_client/node.py:1801-1900 | running handlers stay within the cap in every run exactly when none outlives its wait and none is started without a permit, or spare permits make up for those; without tasks, when the direct calls alone fit |
| `TaskRun.Task` | src/iicp_client/node.py:1669-1876 | every way out of a task, exceptions included, restores permit and counter, records the specified completions and ends as specified |
| `TaskRun.CountedExactly` | src/iicp_client/node.py:1796-1876 | one task is counted once exactly when it reached its outcome and nothing failed afterwards, or its refusal at a closed loop could not be written; twice exactly when writing its response or scheduling its receipt failed; and otherwise not at all |
| `TaskRun.CountedOnceIff` | src/iicp_client/node.py:1796-1876 | with the loop open and the receipt scheduled, once if and only if the handler reached its outcome and the response, if it has one of its own, was written |
| `TaskRun.SucceedsOnlyIff` | src/iicp_client/node.py:1828-1834 | a task is counted as a success and nothing else exactly when its client was answered so and scheduling its receipt raised no Exception but a RuntimeError |
| `TaskRun.CompletedIff` | src/iicp_client/node.py:1724-1876 | a client is told that its task completed exactly when nothing was in the way of handler, response and receipt, and that success is recorded |
| `TaskRun.RefusalsAre` | src/iicp_client/node.py:1725-1782 | which refusal before the handler is for what |
| `TaskRun.TasksAndCompletions` | src/iicp_client/node.py:1796-1876 | over any tasks, completions and uncounted tasks add up to tasks and tasks counted twice |
| `RelayBind.HandleBind` | src/iicp_client/relay_session.py:509-583 | a bind is decided by the ordered checks and registers exactly when bound |
| `RelayBind.BindsIff` | src/iicp_client/relay_session.py:509-583 | a bind is let through exactly with a good and unused ticket, onto no session or one whose transport has closed, and for a new worker within rate limit and cap |
| `RelayBind.BoundHadTicket` | src/iicp_client/relay_session.py:485-583 | in every run whoever is bound had been tried with such a ticket |
| `RelayBind.CleanUp` | src/iicp_client/relay_session.py:593-600 | an ended session removes its entry only while it is still its own |
| `RelayBind.StepKeepsInv` | src/iicp_client/relay_session.py:485-600 | every step of every connection keeps the registry invariant |
| `RelayBind.OneLiveSessionEach` | src/iicp_client/relay_session.py:356-376 | at most one live session for each worker, always the registered one, and the registry never outgrows its cap |
| `RelayBind.LiveSurvives` | src/iicp_client/relay_session.py:537-600 | a live session stays live and registered through everything but its own end |
| `RelayBind.EntryEndsOnlyBy` | src/iicp_client/relay_session.py:537-600 | over every run an entry goes only by the end of its own session, or when its worker binds again after its transport has closed |
| `RelayBind.NothingLeakedIff` | src/iicp_client/relay_session.py:583-600 | over all runs an ended session leaves no entry exactly when acknowledgements cannot fail, or nothing binds |
| `RelayBind.OnlyFailuresLeak` | src/iicp_client/relay_session.py:583-600 | in every run each entry is of a session that is bound, or whose acknowledgement failed |
| `RelayBind.FailedBindLeaks` | src/iicp_client/relay_session.py:583-600 | connect, bind and a failed acknowledgement leave the entry of a closed session |
| `RelayBind.LeakedEntryStays` | src/iicp_client/relay_session.py:583-600 | such an entry stays until its worker connects again |
| `RelayBind.FailuresLockOut` | src/iicp_client/relay_session.py:356-376 | after as many failed acknowledgements as there are places no other worker is ever bound again, over every run in which those workers stay away |
| `Capability.GateNamesFirst` | src/iicp_client/effective_capability.py:333-341 | the early refusal is that of the first requirement that is unknown or denied |
| `Capability.MatchIsExact` | src/iicp_client/effective_capability.py:324-401 | the answer lists exactly the variants that alone meet everything, in order, keeps exactly the extension names they carry, flags exactly a preference none of them offers, and each refusal names the first stage left empty |
| `Capability.MeetsExactly` | src/iicp_client/effective_capability.py:343-381 | what it takes to be in the answer, field by field, class by class and operator by operator |
| `Capability.ReorderingOnlyReorders` | src/iicp_client/effective_capability.py:324-401 | reordering the advertisement only reorders the answer |
| `Capability.AddingNeverRefuses` | src/iicp_client/effective_capability.py:324-401 | a further variant never turns an eligible answer into a refusal and drops none of the answers; it raises exactly when it supports the request under an unreadable deadline |
| `CapabilityCodec.ParseLimits` | src/iicp_client/effective_capability.py:149-164 | the loop accepts exactly the well-formed limits and returns all of them |
| `CapabilityCodec.ParseExtensions` | src/iicp_client/effective_capability.py:193-203 | the loop accepts exactly the well-formed extensions and returns all of them |
| `CapabilityCodec.FromDict` | src/iicp_client/effective_capability.py:123-227 | the parser returns the specified variant or the first thing wrong |
| `CapabilityCodec.ProvenanceRoundTrip` | src/iicp_client/effective_capability.py:166-188 | printed provenance is accepted exactly when valid, and comes back unchanged |
| `CapabilityCodec.ParseUndoesPrint` | src/iicp_client/effective_capability.py:247-285 | parsing a printed variant succeeds exactly for the valid ones and gives them back |
| `CapabilityCodec.AcceptedIsValid` | src/iicp_client/effective_capability.py:123-227 | whatever the parser accepts is valid |
| `CapabilityCodec.ReparseIsStable` | src/iicp_client/effective_capability.py:123-285 | printing what was parsed and parsing it again changes nothing |
| `CapabilityCodec.ShadowFieldsRefused` | src/iicp_client/effective_capability.py:123-203 | no field beyond those of the form is accepted, in a variant, a limit or an extension |
| `Retry.SelectionIsFull` | src/iicp_client/client.py:214-237 | with distinct node ids every strategy returns min(top_n, count) different eligible nodes, the drawn one first and the rest in the directory's order |
| `Retry.LeadingIsFull` | src/iicp_client/client.py:225-236 | for any ids, a drawn node leads a full list exactly when at most one of the first top_n carries its id |
| `Retry.Submit` | src/iicp_client/client.py:598-767 | the nested loops follow the trace specification: candidates in order, unreachable ones left at once, other retryable errors repeated with growing pauses, the end at the first answer or hard error, else the last error |
| `Retry.GoesOnOnlyAfter` | src/iicp_client/client.py:742-762 | a run goes on only after retryable errors, at once to the next candidate only after E003 or E004, and ends at an answer or an error that is not retryable, with that request as its last event |
| `Retry.NoneIsRaisedIff` | src/iicp_client/client.py:598-767 | None is raised, a TypeError, exactly without candidates, or without attempts to make and without a refused preparation |
| `Retry.RunIsDetermined` | src/iicp_client/client.py:683-767 | that specification fixes log and result for every behaviour of the network |
| `Retry.AnswerIsReached` | src/iicp_client/client.py:683-767 | an answer within a candidate's attempts is returned when the candidates before it only throw retryable errors |
| `Retry.VisitBound` | src/iicp_client/client.py:683-762 | one candidate costs at most r posts and r(r-1)/4 seconds of sleep |
| `Retry.SubmitBound` | src/iicp_client/client.py:574-575 | a whole call costs at most r * r posts |
| `Retry.BoundIsReached` | src/iicp_client/client.py:683-767 | against nodes that always throw another retryable error the bounds are reached |

## Left out

- Cryptography: signatures are a boolean parameter, digests are injective; encryption and key agreement are not modelled.
- CBOR, JSON and SQLite: payloads are values, the admission table is a map changed by atomic transactions.
- Sockets, HTTP, DNS, TLS, UPnP, tunnels, process liveness, logging and Windows path handling.
- Concurrent calls into `LocalReplayCache`, whose check and registration are separate locked steps: one call at a time is modelled.
- The relay's HTTP-thread bind path: the event-loop path is modelled.
- The poll endpoints of HTTP-poll relay sessions: their stream queue runs the same steps as the TCP one and is modelled with it.
- Write failures in the middle of a streamed frame: writes of the emitter succeed.
- The methods of `TrustStore`: their reads and writes succeed; a failing one is a step of `TrustStoreProcesses`.
- Integers of more than 4300 digits in a bundle, which Python refuses to print.
- Exceptions of the tracing spans and of the request checks of a task: `TaskRun` models those of handler, response, writes and receipt.
- Power loss after an un-synced rename in the trust store: a crash stops a process between two of its steps.
- `lookup` of the admission store: it reads one row and nothing here uses it.
- Directories that ignore the metrics batch id: the exactly-once theorem asks for one that applies each id once.
- Floating-point rounding: clocks and latencies are integers, limits are reals, pauses are counted in half-seconds, node scores are not modelled and the softmax and epsilon draws are parameters.
- The weighted_v1 order and the candidate ranker of the submit path: the module selection is not part of this model.
- Identity composition, encryption and consumer tokens of the submit path: they appear as a preparation that succeeds or raises.
- `HttpBody.ReadTaskRequestBody`: header text is ASCII; other Unicode letter case and blanks are not modelled.
- A length header of more than 4300 digits ends in Python's own ValueError, modelled as an uncaught error.
- `append_response_chunk`, `bounded_request_json`, `bounded_response_json` and the response header checks: single comparisons.
- `effective_capabilities_from_advertisement` and `resolve_effective_capabilities`: a wrapper check and a choice between three lists.
- The relay's unary calls, ping and discovery handlers, the CLI, shell completion, identity files, pricing, policies, availability windows, peer election and the build scripts.
