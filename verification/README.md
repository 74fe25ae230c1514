# mcpway, verified

mcpway is a bridge between MCP transports: messages enter on one side and leave on another,
and the difficult part is the state in between. These modules model that state in Dafny and
prove what it keeps. Sockets, processes, clocks and parsers are events, parameters or oracles;
every step that the program takes under one lock, or between two awaits, is one step here.

| module | models |
|---|---|
| `AccessCounter`, `SessionProtocol`, `SessionGateway` | sessions of the stateful Streamable HTTP gateway: access counting, response guards, idle timers, cleanup |
| `PendingRequests` | the table of requests a session has sent to its child, its router, timeouts and cleanup tasks |
| `IdCodec`, `ClientMultiplexer` | many WebSocket or gRPC clients on one child: tagged ids, routing, broadcasts |
| `Reliability`, `UpstreamProxy` | backoff, circuit breaker, retry loop; the loop from standard input to an HTTP or SSE upstream with its automatic handshake |
| `Schema`, `ToolClient` | defaults and required keys of tool arguments; matching answers to requests by fresh ids |
| `Discovery`, `Search` | merging servers found in several tools' configuration; filter, sort, page |
| `Jsonc` | the comment stripper for JSON with comments |
| `Names`, `ConnectProfile` | sanitized names and fresh header variables; saving and regenerating a connect profile |
| `Json`, `Text`, `Decimal`, `Ordering`, `Sorting` | what the others share: JSON values, trimming, decimal text, string order, a stable sort |

Protocols are step systems: an `Event`, a predicate `Enabled`, a function `Next` and, for
a sequence of events, `IsRun` and `After`. A run is any interleaving; a theorem about
`After(trace)` holds at every moment of every run, since prefixes of runs are runs. Code that
updates objects is written as classes and methods whose contracts tie them to those functions:
`AccessCounter.SessionAccessCounter` and `SessionGateway.Gateway` carry out the steps of
`SessionProtocol`, `UpstreamProxy.Proxy` produces the trace its lemmas are about, and every
loop in the source is a loop with invariants.

What the proofs found false of the code is stated as a lemma with the case in which it fails:

- The removal that an idle timer spawns can take away a session that is in use again
  (`SessionProtocol.CleanupMayRemoveSessionInUse`) or that a handler has just looked up
  (`SessionProtocol.CleanupMayRemoveSessionLookedUp`). It takes it from nobody exactly when the
  counter still shows the session waiting and no lookup is open
  (`SessionProtocol.CleanupFindsSessionUnusedIff`), and nobody holds the session from the cleanup
  call to the removal exactly when no lookup was open at the call and none comes in between
  (`SessionProtocol.GapIsFreeIff`).
- A DELETE leaks its access exactly when the session has been removed before
  (`SessionProtocol.DeleteLeaksIff`); two concurrent DELETEs are enough
  (`SessionProtocol.SecondDeleteLeaks`). The session then stays counted for ever
  (`SessionProtocol.LeakedDeletePinsSession`), and a session whose handlers are all through with it
  is idle exactly when no DELETE of it came late (`SessionProtocol.SessionGivenBackIff`).
- The clean-up of a timed-out request can cancel a later request that reuses its id
  (`PendingRequests.ReusedIdCanBeCancelled`). A request can be cancelled by others exactly when,
  as it registers, an earlier request of its id has a clean-up still to come, which after its
  return can only be a cleanup task that the abort found past its sleep
  (`PendingRequests.AcceptedIsSafeIff`, `PendingRequests.ReturnedKeyMatesAreHarmless`).
- A child that echoes a numeric id never answers its caller (`PendingRequests.EchoReachesCallerIff`,
  with a run in `PendingRequests.NumericEchoIsBroadcast`).
- Headers of a connect profile that sanitize alike, such as `X-A` and `X_A`, share one variable, and
  no others do (`Names.HeaderVarsCollideIff`).
- A string id that is the text of a 64-bit integer does not come back from the id codec
  (`IdCodec.RoundTripIff`, `IdCodec.LeadingZeroesAreLost`).
- Filling in defaults can make complete arguments incomplete (`Schema.DefaultCanBreakArguments`,
  with the exact condition in `Schema.CompletenessKeptIff`).
- Two tool requests share an id once the counter has saturated (`ToolClient.IdsDistinctIff`).

## Model

| member | source | states |
|---|---|---|
| `AccessCounter.SessionAccessCounter.Inc` | rust/src/support/session_access_counter.rs:28-54 | the locked section of `inc`: a new session becomes active, a waiting timer is aborted, an active count grows by one; nothing else changes |
| `AccessCounter.SessionAccessCounter.Dec` | rust/src/support/session_access_counter.rs:56-95 | the locked section of `dec`, with its error branches: the last access spawns a timer under a new identity, due one timeout from now |
| `AccessCounter.SessionAccessCounter.Fire` | rust/src/support/session_access_counter.rs:84-88 | a timer wakes once, no earlier than it is due, and hands over the session it was made for |
| `SessionProtocol.Accounting` | rust/src/support/session_access_counter.rs:28-95 | in every interleaving a session's entry is absent before its first access, active with exactly the increments not yet matched by decrements, and waiting exactly when they balance; and the difference is the number of handlers still using it |
| `SessionProtocol.DecFindsActiveCount` | rust/src/support/session_access_counter.rs:59-74 | the error branches of `dec` are never reached: whenever a guard's decrement runs it finds an active count above zero |
| `SessionProtocol.GuardDecsOnce` | rust/src/gateways/stdio_to_streamable_http.rs:52-65 | however often a guard is cloned and dropped, its handler has decremented once if its spawned decrement has run, and otherwise not at all |
| `SessionProtocol.DroppedGuardDecs` | rust/src/gateways/stdio_to_streamable_http.rs:52-65 | once the last clone of a guard is gone its one decrement has run or is ready to run |
| `SessionProtocol.LiveIff` | rust/src/gateways/stdio_to_streamable_http.rs:622-649 | the table holds exactly the sessions that were created and that neither a DELETE nor a cleanup has removed, read off the events alone |
| `SessionProtocol.LookupIff` | rust/src/gateways/stdio_to_streamable_http.rs:635-638 | in every run a lookup, of whatever kind of request, succeeds exactly when the session was created and not removed; a session is created exactly when its id is new |
| `SessionProtocol.ScriptRuns` | rust/src/gateways/stdio_to_streamable_http.rs:282-460 | a POST, GET or DELETE of a session that is there can go through all its steps; only a DELETE takes the session out of the table, and all leave it as often in use as it was |
| `SessionProtocol.HandlerCanFinish` | rust/src/gateways/stdio_to_streamable_http.rs:52-82 | no handler gets stuck: wherever it is in whatever run, at most four steps of its own bring it to its end |
| `SessionProtocol.ClonesAreCounted` | rust/src/gateways/stdio_to_streamable_http.rs:39-65 | a guard can be cloned and dropped exactly while a clone is left, and each clone has to be dropped |
| `SessionProtocol.FireSpawnsRemoval` | rust/src/gateways/stdio_to_streamable_http.rs:603-611 | a cleanup call leaves a removal behind, which takes exactly that session out of the table |
| `SessionProtocol.DeleteLeaksIff` | rust/src/gateways/stdio_to_streamable_http.rs:442-459 | a DELETE is counted and left without a guard if and only if a DELETE or a cleanup has removed the session before |
| `SessionProtocol.LeakedIff` | rust/src/gateways/stdio_to_streamable_http.rs:442-459 | at every moment some handler has leaked its access of a session if and only if some DELETE of it came after a removal |
| `SessionProtocol.SecondDeleteLeaks` | rust/src/gateways/stdio_to_streamable_http.rs:428-460 | two handlers that look a session up and both delete it: a run in which the second one leaks |
| `SessionProtocol.SessionGivenBackIff` | rust/src/support/session_access_counter.rs:70-92 | once all handlers of a session are through with it, it is in an idle period, timer set or fired, if and only if no DELETE of it came after a removal |
| `SessionProtocol.LeakedDeletePinsSession` | rust/src/gateways/stdio_to_streamable_http.rs:442-459 | a DELETE that counted itself and then lost the removal race keeps its session active and without an idle timer in every continuation |
| `SessionProtocol.TimerIdentity` | rust/src/support/session_access_counter.rs:84-89 | timer identities are never reused and no two sessions store the same handle; the model's clock is the sum of the ticks |
| `SessionProtocol.IdleTimer` | rust/src/support/session_access_counter.rs:36-42 | the only live timer of a session is the handle in its entry, due one timeout after its idle period began; while the session is in use there is none; and it is idle exactly when its accesses balance |
| `SessionProtocol.IdleWitness` | rust/src/support/session_access_counter.rs:75-89 | an idle period began with a decrement after which accesses balanced, and no access has begun or ended since |
| `SessionProtocol.CleanupOnlyWhenIdle` | rust/src/support/session_access_counter.rs:77-89 | cleanup is called only at least one timeout after the decrement that left no access, with no access begun and no earlier call since, and with no handler using the session |
| `SessionProtocol.IdlePeriodFiresExactlyOnce` | rust/src/support/session_access_counter.rs:84-88 | an idle period as long as the timeout has had its one cleanup call, or exactly one timer of the session, the stored one, can fire now |
| `SessionProtocol.CleanupMayRemoveSessionInUse` | rust/src/gateways/stdio_to_streamable_http.rs:603-611 | for every timeout there is a run in which the removal spawned by cleanup takes away a session that a handler is using |
| `SessionProtocol.CleanupMayRemoveSessionLookedUp` | rust/src/gateways/stdio_to_streamable_http.rs:603-611 | for every timeout there is a run in which the removal comes between a handler's lookup and its access, which is then counted on a session that is gone |
| `SessionProtocol.CleanupFindsSessionUnusedIff` | rust/src/gateways/stdio_to_streamable_http.rs:603-611 | the spawned removal takes the session from no handler, counted or only past its lookup, if and only if the history is in an idle period and every lookup has been followed by its access; and it is in an idle period exactly when the counter's entry is waiting |
| `SessionProtocol.GapIsFreeIff` | rust/src/gateways/stdio_to_streamable_http.rs:603-611 | nobody holds the session at any moment from the cleanup call up to the removal if and only if no lookup was open at the call and no lookup comes in between |
| `SessionGateway.GuardInner.Drop` | rust/src/gateways/stdio_to_streamable_http.rs:52-65 | of all drops of the clones of a guard only the first spawns a decrement |
| `SessionGateway.Gateway.CreateSession` | rust/src/gateways/stdio_to_streamable_http.rs:622-633 | the session table and the counter are updated together, exactly as the protocol's creation step |
| `SessionGateway.Gateway.GetSession` | rust/src/gateways/stdio_to_streamable_http.rs:635-638 | a handler of whatever kind goes on exactly when the id is in the table, which does not change |
| `SessionGateway.Gateway.SessionInc` | rust/src/gateways/stdio_to_streamable_http.rs:651-655 | refines the protocol's counting step |
| `SessionGateway.Gateway.AttachGuard` | rust/src/gateways/stdio_to_streamable_http.rs:67-82 | the response of a POST or GET gets a fresh guard of its own, which has not fired |
| `SessionGateway.Gateway.RemoveSession` | rust/src/gateways/stdio_to_streamable_http.rs:442-459 | the session is gone afterwards, and the DELETE has a guard if and only if it was the one to remove it |
| `SessionGateway.Gateway.DropClone` | rust/src/gateways/stdio_to_streamable_http.rs:52-65 | the fired flag agrees with the protocol: a drop spawns the decrement exactly when that makes it runnable for the first time |
| `SessionGateway.Gateway.SessionDec` | rust/src/gateways/stdio_to_streamable_http.rs:657-661 | the spawned decrement refines the protocol's step on the session the guard was made for |
| `SessionGateway.Gateway.WakeTimer` | rust/src/gateways/stdio_to_streamable_http.rs:599-612 | a live timer that is due fires for its own session and leaves a removal to run later |
| `SessionGateway.Gateway.CleanUp` | rust/src/gateways/stdio_to_streamable_http.rs:606-610 | the removal takes the session out of the table, whoever may be using it, and touches nothing else |
| `PendingRequests.Session.Add` | rust/src/gateways/stdio_to_streamable_http.rs:533-545 | refused as duplicate exactly when the id is in the table, as too many exactly when it is not and the table holds 512, and otherwise stored; nothing else changes |
| `PendingRequests.RegisterOutcome` | rust/src/gateways/stdio_to_streamable_http.rs:533-545 | the same over runs: what becomes of a request and of the table as it registers |
| `PendingRequests.DistinctRequestsAreAccepted` | rust/src/gateways/stdio_to_streamable_http.rs:533-545 | any up to 512 requests with different ids are all accepted and in flight together |
| `PendingRequests.Session.Take` | rust/src/gateways/stdio_to_streamable_http.rs:508-511 | the locked removal by id, which yields whatever sender is there; routing and every clean-up use the same removal |
| `PendingRequests.EveryRunKeepsInv` | rust/src/gateways/stdio_to_streamable_http.rs:526-581 | every interleaving of insertions, routing, send failures, timeouts and cleanup tasks keeps: at most 512 entries, each that of an unreturned call registered under its key with an unused channel; answers carry the call's key; a call that still listens can be reached |
| `PendingRequests.TableIsSafe` | rust/src/gateways/stdio_to_streamable_http.rs:533-545 | at every moment at most 512 entries, one caller per entry and one entry per caller, and none of a caller whose `request` has returned |
| `PendingRequests.AnswersCarryTheKey` | rust/src/gateways/stdio_to_streamable_http.rs:507-517 | a caller is answered only by a message with its key as string id, so the answer has the very id it sent if and only if that id was a string |
| `PendingRequests.EchoReachesCallerIff` | rust/src/gateways/stdio_to_streamable_http.rs:507-517 | a message echoing a waiting caller's id is handed to that caller if the id is a string, and otherwise broadcast to nobody in particular |
| `PendingRequests.EchoIsAnswered` | rust/src/gateways/stdio_to_streamable_http.rs:507-581 | the echo of a waiting caller's string id, routed and handed over, is what that caller returns |
| `PendingRequests.TimeoutReturns` | rust/src/gateways/stdio_to_streamable_http.rs:569-580 | a call that has waited 30 seconds can time out, and leaves no entry of its key |
| `PendingRequests.NumericEchoIsBroadcast` | rust/src/gateways/stdio_to_streamable_http.rs:507-517 | a run in which the echo of the id 5 is broadcast while its caller goes on waiting |
| `PendingRequests.ResolvedOnce` | rust/src/gateways/stdio_to_streamable_http.rs:512-515 | whatever happens later, a resolved or closed channel stays as it is and a returned reply stays the reply |
| `PendingRequests.CancelledByOthersIff` | rust/src/gateways/stdio_to_streamable_http.rs:549-577 | a waiting request has a continuation in which it is cancelled, not by its own cleanup task, if and only if another call of its key has a removal still to come |
| `PendingRequests.AcceptedIsSafeIff` | rust/src/gateways/stdio_to_streamable_http.rs:533-545 | the same read off the state before the request registers: an accepted request can be cancelled by others if and only if an earlier call of its key has a removal still to come |
| `PendingRequests.UnrivalledLivesOut` | rust/src/gateways/stdio_to_streamable_http.rs:547-580 | a request accepted while no earlier call of its key has a removal to come is, in every continuation, neither closed before it is done nor cancelled unless by its own cleanup task; and for 30 seconds not by that either, nor does it time out |
| `PendingRequests.FirstDecides` | rust/src/gateways/stdio_to_streamable_http.rs:562-577 | of the answer, the removal of its entry and the timeout, the first to come while a call waits decides whether it is answered, cancelled or timed out, in every continuation |
| `PendingRequests.ReturnedKeyMatesAreHarmless` | rust/src/gateways/stdio_to_streamable_http.rs:549-580 | earlier calls of its key that have returned, with no cleanup task past its sleep, have no removal to come |
| `PendingRequests.ClosedByKeyMate` | rust/src/gateways/stdio_to_streamable_http.rs:564-568 | the step that closed the channel of a call that is not done, after the call registered, is a removal by another caller with its key or by its own cleanup task |
| `PendingRequests.ReusedIdCanBeCancelled` | rust/src/gateways/stdio_to_streamable_http.rs:569-576 | a run in which a timed-out caller's clean-up cancels a later caller that reused the id, has not timed out and was not cleaned up by its own task |
| `PendingRequests.MessagesAreConserved` | rust/src/gateways/stdio_to_streamable_http.rs:507-517 | each message the router takes is, as often as it came, broadcast, handed to a caller, lost to a caller that had stopped listening, or still in the router's hand; never two of these |
| `PendingRequests.DeliveriesResolveTheirCaller` | rust/src/gateways/stdio_to_streamable_http.rs:512-515 | each delivery resolved the channel of its own caller with that message, and no caller had two |
| `IdCodec.SplitIsUnique` | rust/src/gateways/stdio_to_ws.rs:300-302 | for a client without a colon, splitting the tagged id at the first colon gives back client and raw text, which may itself hold colons |
| `IdCodec.RoundTripIff` | rust/src/gateways/stdio_to_ws.rs:289-308 | stripping a prefixed id returns the client and the original id if and only if the id is a 64-bit signed integer or a string that does not parse as one |
| `IdCodec.TagIs` | rust/src/gateways/stdio_to_ws.rs:289-295 | an id is tagged as the client, a colon and the id's own text |
| `IdCodec.PrefixInjective` | rust/src/gateways/stdio_to_grpc.rs:264-283 | ids of different clients are never tagged alike, and surviving ids of one client only when equal |
| `IdCodec.ColonInClientBreaksRoundTrip` | rust/src/gateways/stdio_to_ws.rs:300-302 | a client id with a colon never comes back |
| `IdCodec.LeadingZeroesAreLost` | rust/src/gateways/stdio_to_ws.rs:303-306 | the string id "007" comes back as the number 7 |
| `Decimal.PrintNatInjective` | rust/src/generator/normalize.rs:62 | different numbers have different decimal suffixes |
| `Decimal.PrintParses` | rust/src/gateways/stdio_to_ws.rs:303-306 | parsing the decimal text of an integer as i64 gives it back, or fails exactly when it is out of range |
| `Decimal.ParsesIff` | rust/src/gateways/stdio_to_ws.rs:303-306 | what is read as an i64 is digits, with a sign in front or without, that fit; and nothing else |
| `ClientMultiplexer.ClientTable.Snapshot` | rust/src/gateways/stdio_to_ws.rs:146-152 | the copied senders are exactly the connected clients, each once |
| `ClientMultiplexer.ClientTable.Sweep` | rust/src/gateways/stdio_to_ws.rs:160-165 | exactly the clients whose sender failed are removed |
| `ClientMultiplexer.EveryRunKeepsInv` | rust/src/gateways/stdio_to_grpc.rs:164-230 | every interleaving of connections, disconnections, client messages and child outputs keeps each client's queue in the child's order, free of duplicates and of outputs addressed to others, also part way through a broadcast |
| `ClientMultiplexer.NoCrossing` | rust/src/gateways/stdio_to_ws.rs:123-144 | whatever is on a client's queue is an output addressed to that client with its own id restored, or one without a client id; each at most once and in the child's order |
| `ClientMultiplexer.AnswerIsDelivered` | rust/src/gateways/stdio_to_ws.rs:132-144 | an output addressed to a connected client that listens is put on its queue, with the client's own id and the output's number, and on no other |
| `ClientMultiplexer.DueIsReceived` | rust/src/gateways/stdio_to_ws.rs:123-165 | once the router has moved on, a client that still listens has every output, addressed to it or broadcast, that was taken while it was connected |
| `ClientMultiplexer.ClientsAreConnected` | rust/src/gateways/stdio_to_ws.rs:191-233 | the map holds only clients that connected and did not disconnect, and all of those that still listen |
| `ClientMultiplexer.ChildGetsTheMessage` | rust/src/gateways/stdio_to_ws.rs:214-223 | the child is sent each client message as it was, but for an id, which is tagged with the client |
| `ClientMultiplexer.BroadcastReachesEveryListener` | rust/src/gateways/stdio_to_ws.rs:146-165 | when a broadcast ends, every client in its snapshot that still listens has the message |
| `ClientMultiplexer.AnswersMatchRequests` | rust/src/gateways/stdio_to_grpc.rs:77-88 | with a child that answers each string id no more often than it was sent, every client receives, for each id, no more answers than it has so far made requests whose id comes back as that one, whatever ids it and the other clients use |
| `ClientMultiplexer.PlainIdsAreAnsweredAsSent` | rust/src/gateways/stdio_to_ws.rs:214-226 | for a client whose ids survive the codec these are its requests with that very id |
| `ClientMultiplexer.AnswersWereSent` | rust/src/gateways/stdio_to_ws.rs:125-130 | if no string id is in one list of messages more often than in another, neither is any client and id that such ids decode to |
| `ClientMultiplexer.SentWereAsked` | rust/src/gateways/stdio_to_ws.rs:214-226 | what the child was sent under ids that decode to a client and an id are exactly that client's own requests whose id comes back as that one |
| `ClientMultiplexer.ReceivedWereOutput` | rust/src/gateways/stdio_to_ws.rs:132-144 | a client receives no more answers under an id than the child wrote for it |
| `Reliability.BackoffIsCappedDoubling` | rust/src/transport/reliability.rs:12-22 | despite the checked product the delay is base times 2^min(i, 16), capped at the maximum |
| `Reliability.BackoffDoubles` | rust/src/transport/reliability.rs:12-22 | the first delay is the base, each next one twice the one before up to the sixteenth, and none is longer than the maximum |
| `Reliability.BackoffNondecreasing` | rust/src/transport/reliability.rs:12-22 | delays never shrink with the attempt and never exceed the maximum |
| `Reliability.CircuitBreaker.WaitIfOpen` | rust/src/transport/reliability.rs:47-61 | sleeps to the end of the cooldown and no longer, and closes the circuit with nothing counted |
| `Reliability.CircuitBreaker.RecordSuccess` | rust/src/transport/reliability.rs:63-66 | closes the circuit and forgets all failures |
| `Reliability.CircuitBreaker.RecordFailure` | rust/src/transport/reliability.rs:68-79 | counts with saturation, and opens for the cooldown exactly when the threshold is reached |
| `Reliability.RunWithRetry` | rust/src/transport/reliability.rs:82-127 | between one and max_retries + 1 attempts; the result is that of the last one, which is a success or the final error; attempts start exactly when the log's rules say; the error after the loop is never reached |
| `Reliability.EveryAttempt` | rust/src/transport/reliability.rs:92-122 | each attempt starts when the circuit is not open, and after a failure exactly when the longer of the backoff and, if that failure opened the circuit, the cooldown is over |
| `Reliability.LogOutcomes` | rust/src/transport/reliability.rs:95-104 | the attempts are the operation's first calls in order, and all but the last have failed, so a success is the first one |
| `Reliability.ReplayJoins` | rust/src/transport/reliability.rs:82-127 | successive calls that share one breaker behave as one history |
| `Reliability.OpeningCount` | rust/src/transport/reliability.rs:68-80 | with threshold t, after f failures since the last success the breaker counts f mod t and has opened f div t times; it is open exactly after the failure that opened it |
| `Reliability.ZeroThresholdNeverOpens` | rust/src/transport/reliability.rs:70-74 | a threshold of zero never opens the circuit, however many failures saturate the count |
| `UpstreamProxy.WrapResponds` | rust/src/gateways/streamable_http_to_stdio.rs:397-429 | a wrapped payload is a response with the request's own id and version and exactly one of result and error |
| `UpstreamProxy.ReplyIsConveyed` | rust/src/gateways/streamable_http_to_stdio.rs:366-429 | whatever came back: a successful document gives the line its own result, or all of it when it has none; an error in the document decides whatever the status; a failed status, a blank or unreadable body or no reply becomes error -32000 with its reason |
| `UpstreamProxy.SuccessesAre` | rust/src/gateways/streamable_http_to_stdio.rs:366-395 | an initialize exchange succeeds exactly with a successful document without an error, and a notification exactly with a successful response |
| `UpstreamProxy.MessagesAre` | rust/src/gateways/streamable_http_to_stdio.rs:158-166 | of the lines before the first read error exactly those that parse count, in order |
| `UpstreamProxy.PrefixIsRemoved` | rust/src/gateways/streamable_http_to_stdio.rs:440-447 | whatever follows its code's prefix, the printed message is that without the prefix and without the white space at either end |
| `UpstreamProxy.MessageChangesIff` | rust/src/gateways/streamable_http_to_stdio.rs:440-447 | an error message is changed if and only if it starts with its code's prefix |
| `UpstreamProxy.Proxy.Run` | rust/src/gateways/streamable_http_to_stdio.rs:158-231 | for any input and any upstream, every message read is served exactly once and in order, with blank and unreadable lines skipped; the run fails exactly at the first read error, with that error |
| `UpstreamProxy.Proxy.Handle` | rust/src/gateways/sse_to_stdio.rs:162-224 | without an endpoint nothing is posted and the reason printed; otherwise the first post is the request itself, or a complete initialize when the gateway has none confirmed and the request is not one; and the request is relayed unless that initialize failed |
| `UpstreamProxy.Proxy.ForwardRequest` | rust/src/gateways/streamable_http_to_stdio.rs:207-227 | the request goes upstream and the line printed relays its own payload, after a confirmation when it was a successful first initialize |
| `UpstreamProxy.Proxy.InitializeForClient` | rust/src/gateways/streamable_http_to_stdio.rs:182-205 | an initialize is posted on the client's behalf; on success it is confirmed before anything else and on failure its error is what the client gets |
| `UpstreamProxy.Proxy.Deliver` | rust/src/gateways/streamable_http_to_stdio.rs:291-325 | between one and max_retries + 1 posts of the message are added, all of these if it fails, the last of which decides the payload, which is exactly one of result and error |
| `UpstreamProxy.Proxy.ConfirmInitialized` | rust/src/gateways/streamable_http_to_stdio.rs:215-224 | the gateway holds itself initialized exactly when a notification has been accepted |
| `UpstreamProxy.NothingBeforeInitialize` | rust/src/gateways/streamable_http_to_stdio.rs:182-213 | in every trace, whatever is posted that is not an initialize comes after an initialize exchange that ended without error |
| `UpstreamProxy.ConfirmedMeansInitialized` | rust/src/gateways/streamable_http_to_stdio.rs:197-204 | an accepted notification implies an earlier successful initialize |
| `UpstreamProxy.ConfirmedOnce` | rust/src/gateways/sse_to_stdio.rs:179-221 | after a notification has been accepted no other is sent, and the gateway never initializes again of its own accord |
| `UpstreamProxy.SuccessIsConfirmedAtOnce` | rust/src/gateways/streamable_http_to_stdio.rs:215-224 | while no notification has been accepted, the event right after a successful initialize is an attempt to confirm it |
| `UpstreamProxy.RelayedAnswerIsOwn` | rust/src/gateways/streamable_http_to_stdio.rs:207-227 | a relayed line conveys the reply to the last attempt at that very request, with nothing but confirmations in between |
| `UpstreamProxy.RefusalSaysWhy` | rust/src/gateways/sse_to_stdio.rs:162-193 | a request refused for a failed initialization gets the error of its last attempt, one without an endpoint the reason |
| `UpstreamProxy.SessionIsCarried` | rust/src/gateways/streamable_http_to_stdio.rs:306-316 | a post carries the session id that the upstream named last |
| `UpstreamProxy.NoSessionBeforeNamed` | rust/src/gateways/streamable_http_to_stdio.rs:306-316 | before the upstream has named a session, posts carry none |
| `UpstreamProxy.ServedInOrder` | rust/src/gateways/streamable_http_to_stdio.rs:226-227 | the k-th line printed is about the k-th message served: its response if it is a request, itself if not |
| `UpstreamProxy.EveryEvent` | rust/src/gateways/streamable_http_to_stdio.rs:302-318 | every post carries the session id named last and takes the upstream's next reply, and every printed line has one of the permitted reasons |
| `Schema.ApplyDefaultsObject` | rust/src/tool_api/schema.rs:35-59 | visiting the properties in any order gives the one completed object |
| `Schema.ApplyDefaults` | rust/src/tool_api/schema.rs:5-15 | a value that is not an object, or whose schema is no object schema, is untouched; any other is completed |
| `Schema.FilledIs` | rust/src/tool_api/schema.rs:5-15 | defaults go into objects whose schema has the type object, or no type but properties or required keys; anything else comes back unchanged |
| `Schema.CompletedIs` | rust/src/tool_api/schema.rs:46-58 | a listed property is there afterwards if it was there or has a default, with its own defaults in it; every other member is as it was |
| `Schema.TypeIsOptional` | rust/src/tool_api/schema.rs:110-120 | for a schema without a type that has properties or required keys, adding the type object changes neither defaults nor what is missing |
| `Schema.FilledIdempotent` | rust/src/tool_api/schema.rs:5-59 | applying defaults twice is applying them once |
| `Schema.ExistingValuesKept` | rust/src/tool_api/schema.rs:47-51 | at every depth existing values stay: objects keep their members, other values are unchanged |
| `Schema.AddedAreDefaults` | rust/src/tool_api/schema.rs:46-58 | whatever is new lies under the default of a property its object lacked, completed by that property's schema |
| `Schema.ValidateRequiredObject` | rust/src/tool_api/schema.rs:61-107 | reports nothing exactly when nothing is missing, and otherwise a path and key at which an object lacks what its schema requires |
| `Schema.CompleteIff` | rust/src/tool_api/schema.rs:61-107 | level by level complete is the same as no path through objects and object schemas ending where a required key is missing |
| `Schema.LacksIff` | rust/src/tool_api/schema.rs:73-104 | something is missing exactly when a string in the required array is not a member, or something is missing in a member that is an object with an object schema |
| `Schema.RequiredWithoutDefaultIsMissing` | rust/src/tool_api/schema.rs:73-85 | a required key that is neither given nor defaulted is missing after defaults |
| `Schema.NormalizeArgs` | rust/src/tool_api/client.rs:259-271 | arguments that are no object are refused; with the type object, or none but properties or required keys, they are completed, and refused exactly when the result lacks a required key, naming such a place; with any other schema they come back as they were |
| `Schema.CompletenessKeptIff` | rust/src/tool_api/schema.rs:46-58 | arguments complete before defaults are complete after them if and only if every object default put in is itself complete |
| `Schema.CompleteDefaultsAreHarmless` | rust/src/tool_api/schema.rs:35-59 | with a schema whose defaults are all complete, defaulting never breaks complete arguments |
| `Schema.DefaultCanBreakArguments` | rust/src/tool_api/schema.rs:46-58 | a schema for which defaulting turns complete arguments into incomplete ones |
| `ToolClient.ClientState.NextRequestId` | rust/src/tool_api/client.rs:253-256 | the counter grows by one until it saturates, and the id is its decimal text behind a fixed prefix |
| `ToolClient.IdsDistinctIff` | rust/src/tool_api/client.rs:253-256 | two requests share an id only once the counter has saturated |
| `ToolClient.StringKeyInjective` | rust/src/tool_api/transport.rs:645-654 | no other id has the table key of a string id |
| `ToolClient.KeysCollideIff` | rust/src/tool_api/transport.rs:645-654 | two ids have the same table key if and only if they are equal, or numbers of the same text of which one is fractional, or containers of the same text |
| `ToolClient.EveryRunKeepsInv` | rust/src/tool_api/transport.rs:363-397 | whatever arrives and whenever, also when callers drop requests half way, each entry is under the key of its own request, which is being made and unanswered or was abandoned; and every answer kept or returned carries its request's id |
| `ToolClient.AnswersAreNotMisattributed` | rust/src/tool_api/transport.rs:525-559 | the payload a request returns carries the id of that request, and that of no other while ids are fresh |
| `ToolClient.AnswerIsReturned` | rust/src/tool_api/transport.rs:383-396 | an answer that carries the id of the request being made is what that request returns |
| `ToolClient.LateAnswersFindNothing` | rust/src/tool_api/transport.rs:489-491 | between requests only abandoned ones have entries, and without those the table is empty; a late answer changes nothing but such an entry |
| `ToolClient.ClientState.ReplaceTools` | rust/src/tool_api/client.rs:231-239 | the index holds for every name the last tool of that name in the new list, and nothing older |
| `ToolClient.ClientState.ResolveTool` | rust/src/tool_api/client.rs:222-229 | a tool is found exactly when the catalogue has one of that name, and then it is the last |
| `ToolClient.LastNamedIff` | rust/src/tool_api/client.rs:231-239 | the tool of a name is the one in the list after which no other has that name |
| `Jsonc.StripJsoncComments` | rust/src/discovery/sources/mod.rs:116-172 | the one-pass loop with its two inner loops computes the recursive scan |
| `Jsonc.StripKeepsStructure` | rust/src/discovery/sources/mod.rs:116-172 | stripping the rendering of plain characters, string literals with escapes and comments gives the rendering without the comments, newlines of line comments kept |
| `Jsonc.EveryTextHasTokens` | rust/src/discovery/sources/mod.rs:122-169 | every text is such a rendering, also with a literal or comment cut off at its end |
| `Jsonc.CleanIff` | rust/src/discovery/sources/mod.rs:141-168 | a text is left alone if and only if no comment opens outside its string literals |
| `Jsonc.StripIsIdempotentAndClean` | rust/src/discovery/sources/mod.rs:116-172 | on every input the output has no comment opener outside strings, and stripping again changes nothing |
| `Names.ReplaceUntilStable` | rust/src/generator/normalize.rs:124-126 | the replace loop ends, and its result is the one-pass collapse of runs |
| `Names.Sanitize` | rust/src/generator/normalize.rs:115-143 | mapping, collapsing and trimming in loops gives the sanitized name |
| `Names.SanitizeArtifactNameIff` | rust/src/generator/normalize.rs:115-128 | a sanitized name is clean, and a name is left alone exactly when it is clean |
| `Names.CharsAre` | rust/src/generator/normalize.rs:117-138 | letters become lower case in artifact names and upper case in variables, digits stay, and other characters become the separator |
| `Names.SanitizingKeepsOthers` | rust/src/generator/normalize.rs:124-127 | collapsing and trimming take away separators and nothing else |
| `Names.SanitizeArtifactNameIdempotent` | rust/src/generator/normalize.rs:115-128 | sanitizing twice is sanitizing once |
| `Names.HeaderEnvVarNameIsName` | rust/src/generator/mod.rs:470-483 | a header variable is never empty and has no doubled, leading or trailing separator |
| `Names.HeaderEnvVarNameIs` | rust/src/generator/mod.rs:470-483 | mapping, collapsing and trimming the prefixed name gives the fixed prefix and the header sanitized by itself, or the bare prefix when nothing of it is left |
| `Names.HeaderVarsCollideIff` | rust/src/generator/mod.rs:235-237 | two headers of a connect profile get the same variable if and only if they sanitize alike |
| `Names.DashAndUnderscoreCollide` | rust/src/generator/mod.rs:470-483 | two different headers with the same variable |
| `Names.RejectedAreUsed` | rust/src/generator/normalize.rs:60-64 | k rejected candidates are k different used names, which bounds the search |
| `Names.FreeCandidate` | rust/src/generator/normalize.rs:58-64 | the suffix search ends with the first candidate that is not used |
| `Names.FirstVariables` | rust/src/generator/normalize.rs:58-64 | the first header of a name gets its plain variable, the next that sanitizes alike the suffix 1 |
| `Names.AssignHeaderVars` | rust/src/generator/normalize.rs:55-70 | each header gets the first candidate of its own base that no earlier header took, and all variables are distinct |
| `ConnectProfile.TemplateRoundTripIff` | rust/src/generator/mod.rs:485-490 | a text is read as the template of a key exactly when it is that template and the key is not empty |
| `ConnectProfile.ProfileFromConfig` | rust/src/generator/mod.rs:209-246 | the profile of a configuration or the error it fails with, its bindings in the order of the headers |
| `ConnectProfile.WriteProfile` | rust/src/generator/mod.rs:285-342 | the part of the metadata that regeneration reads, with a template for each binding, a later one of a header replacing an earlier |
| `ConnectProfile.ProfileFromMetadata` | rust/src/generator/mod.rs:248-283 | the profile of a metadata file or the error it fails with, bindings sorted, other templates replaced by derived variables |
| `ConnectProfile.RegenerationIsFixedPointIff` | rust/src/generator/mod.rs:248-342 | a profile read back from the metadata written for it is the same profile if and only if its name is clean, its headers are in order and no variable is empty |
| `ConnectProfile.SavedProfilesAreRegular` | rust/src/generator/mod.rs:209-246 | every profile made from a configuration meets that condition, and so regenerates unchanged |
| `ConnectProfile.OverrideMovesOnly` | rust/src/generator/mod.rs:257-261 | with another directory given, the directory is all that changes |
| `Sorting.SortIsStable` | rust/src/discovery/mod.rs:287-293 | the sort keeps the order of elements that compare alike |
| `Sorting.SortedUnique` | rust/src/discovery/mod.rs:265 | two sorted lists of the same elements are equal when no two different elements compare alike |
| `Discovery.CollapseSourceScopePrecedence` | rust/src/discovery/mod.rs:285-301 | a source contributes one server for each of its names: the one of narrowest scope and, among those, the earliest in its list |
| `Discovery.ContributesIff` | rust/src/discovery/mod.rs:303-308 | that is: the first project server of the name, and the first global one only when there is no project server |
| `Discovery.MergeServer` | rust/src/discovery/mod.rs:197-211 | a server is kept when its name is new and otherwise reported against the one kept |
| `Discovery.Merge` | rust/src/discovery/mod.rs:187-213 | after all sources: one server per name, from the first source that has it; one conflict for each other contribution; servers plus conflicts equals contributions |
| `Discovery.KeptIsLeast` | rust/src/discovery/mod.rs:190-213 | the kept server is the least of its name over everything found, by source, then scope, then place in its list |
| `Discovery.EveryLoserConflictsOnce` | rust/src/discovery/mod.rs:198-208 | each contribution that is not kept is the dropped side of exactly one conflict, which names source, scope and path of the final winner as kept and its own as dropped |
| `Discovery.Discover` | rust/src/discovery/mod.rs:160-223 | given what each reader finds: servers in name order, one for every name found, each the winner of its name; the conflicts are those of the merge, and servers plus conflicts equals contributions |
| `Discovery.OneWinner` | rust/src/discovery/mod.rs:190-213 | a name has one winner, so the report is determined by what was found |
| `Ordering.LessIff` | rust/src/discovery/mod.rs:196 | texts are ordered by the first place where they differ, where one ends or has the smaller character |
| `Discovery.MergedInPriorityOrder` | rust/src/discovery/mod.rs:150-194 | filtering the priority list by the selection gives the selected source, or all seven from Cursor to VS Code in order |
| `Search.CompareIsPreorder` | rust/src/discovery/mod.rs:344-367 | for every sort field the comparison is a total preorder, and servers that compare equal have the same name |
| `Search.KeepMatching` | rust/src/discovery/mod.rs:233-263 | the filter keeps exactly the matching servers, in order |
| `Search.MatchesIff` | rust/src/discovery/mod.rs:226-261 | a server matches if it has the transport, scope and source asked for, is enabled if that is asked for, and one of its eight texts mentions the trimmed query, whatever the case |
| `Search.WordsAre` | rust/src/discovery/mod.rs:321-332 | the words by which a query finds sources, scopes and transports |
| `Search.ApplySearch` | rust/src/discovery/mod.rs:225-283 | the pipeline yields the page [offset, offset + limit) of all results |
| `Search.ResultsIgnoreInputOrder` | rust/src/discovery/mod.rs:265-268 | for distinct names the results do not depend on the order of the report |
| `Search.OnlyOneOrder` | rust/src/discovery/mod.rs:265 | any sorted list of the matching servers is the one produced |
| `Search.ReportsHaveDistinctNames` | rust/src/discovery/mod.rs:215 | a discovery report meets the condition of the two statements above |
| `Search.ResultsAreSortedMatches` | rust/src/discovery/mod.rs:233-268 | the results are the matching servers, each as often as in the report, in the requested direction |
| `Search.ResultsAreOrdered` | rust/src/discovery/mod.rs:349-377 | the results are ordered by the field asked for, scopes from project to global and transports from stdio to gRPC, and by name where that is the same |
| `Search.DescReversesAsc` | rust/src/discovery/mod.rs:266-268 | descending order is exactly ascending order backwards |
| `Search.PagesJoin` | rust/src/discovery/mod.rs:270-275 | consecutive pages concatenate, and the unlimited page from the start is the whole list |
| `Search.PageIs` | rust/src/discovery/mod.rs:270-275 | the i-th server of a page is the one at offset + i, up to the limit and the end |

## Left out

- Sockets, HTTP, WebSocket, gRPC and process spawning: they appear as events or oracle replies. Bounded channels, lagging receivers and backpressure only drop or delay messages, so safety is proved and delivery is not.
- JSON, TOML and URL parsing, UUIDs: JSON is a datatype, a parser's outcome is a parameter, and client and session ids are assumed fresh and, for clients, free of colons. Floating-point numbers are their JSON text.
- Parsing of event-stream bodies in the Streamable HTTP proxy: its outcome is part of the upstream's reply.
- Gateway handlers cancelled part way, `StdioChild::restart` and `shutdown`: a handler runs to its end, and a removed session is only gone from the table.
- A gateway without session timeout has no counter and none of the steps about it.
- The stateless Streamable HTTP handler, background printing of server events in the SSE proxy, header merging and bearer-token checks: plumbing around the modelled loops.
- Tool transports over plain HTTP and SSE, and reconnecting after a reader ends: a disconnect is a failed request here.
- Readers of the individual tools' configuration files: what they find is the input of discovery; their issues, and finding the project root, are not modelled.
- Scripts, launchers and the other members of an artifact's metadata file: only what regeneration reads is kept.
- CLI, telemetry, log tailing, web inspector, themes, admin server, OAuth and the warm-hint pool.
- Reliability.RunWithRetry: sleeps take exactly as long as asked, because the clock is exact; a real one oversleeps.
- Schema.ApplyDefaultsObject: returns the new members instead of mutating the caller's map, so aliasing is not captured.
- SessionProtocol.IdlePeriodFiresExactlyOnce: says that a due timer can fire, not that the scheduler lets it.
- PendingRequests.EchoReachesCallerIff: says where the router puts the echo, not that a caller whose id is reused receives it; what reuse can do is in `PendingRequests.AcceptedIsSafeIff`.
- A failed send aborts the cleanup task and removes the entry in one step; the source may let other tasks run between the two, when the task can no longer fire.
- Access counts and sequence numbers other than the request counter are unbounded; the source's would need 2^64 steps to differ.
