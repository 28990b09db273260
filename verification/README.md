# Verified model of the EZ isolate SDK bridges

The SDK connects an *isolate* (user code behind a gRPC service) with the *enforcer* that
routes calls between isolates. This project models the concurrent state machines of the two
bridges, the dispatchers, the message conversions between two isolates, and the string and
table transformations beside them, and proves what every run keeps. `dafny verify
dfyconfig.toml` checks the whole project.

| file | models |
|---|---|
| `Messages.dfy` | envelopes and the mock enforcer's conversions between them |
| `Runs.dfy`, `Sequences.dfy` | runs of a machine over a schedule; sequence helpers |
| `ReactorWrites.dfy` | write half of the C++ streaming reactor: writers against write completions |
| `StreamRouting.dfy` | read half of the reactor: which service sees which message |
| `StreamBridge.dfy` | the mock enforcer's bidirectional pipe, its reader thread and its teardown |
| `Calls.dfy` | outbound calls of the C++ client: ids, callbacks, received memory regions |
| `Fileshare.dfy` | fileshare creation and the copy-then-rename commit |
| `Subscription.dfy` | fileshare event handlers and the subscription thread |
| `Readiness.dfy` | the isolate state kept by the C++ and the Rust bridge |
| `Dispatch.dfy` | unary dispatch in C++ and Rust, streaming dispatch in Rust |
| `Transparency.dfy` | a call from client to service and back, unary and streaming |
| `Substitution.dfy`, `Snakecase.dfy`, `Kebab.dfy` | regex substitution, `_snakecase`, the two kebab-case programs |
| `Summation.dfy` | the prefix-sum table, the looping service, the closed form |

How concurrency is modelled: every atomic action of the source is one `Step`; `Apply` is
total and skips a step that is not enabled, which is how a blocked thread behaves; `Exec`
runs any sequence of steps. Theorems quantify over all schedules. Beside each machine stands
a class whose methods are the source's actions: each is proved equal to its step and, where
the machine has an invariant, keeps it as `Valid()`; most also state what a caller may rely
on at that point.

What is taken for granted of the surroundings:

- gRPC gives one `OnReadDone` per `StartRead` and one completion per `StartWrite`; `OnDone`
  comes after `Finish`, when no other callback runs, and is the last callback; a failed read
  leaves the message buffer as it was; a response stream is delivered up to its first error.
- Fileshare operations of one client follow each other. `rename` is atomic. Copying without
  options follows sections [fs.op.copy] and [fs.op.copy.file] of ISO C++: a missing source or
  an existing target is an error.
- Names are ASCII. The test script's `echo` is the one built into bash, which takes `-n`,
  `-e` and `-E` for options and does not interpret backslashes. `unix:///tmp/x` is the socket
  `/tmp/x`.
- Where a theorem asks for faithful codecs, they satisfy decode(encode(m)) = m; nothing else is
  known of them.

Where the code does not keep what its comments or its use suggest, the model follows the code
and a lemma says exactly when the promise holds:

- `WriteResponse` excludes overlapping writes exactly when a stream has at most one writer
  thread: waiting and storing is no test-and-set (`ExclusionIffOneWriter`).
- `WriteResponse` says it keeps a response alive until its write is done. That too holds
  exactly with at most one writer (`LifetimesIffOneWriter`).
- The mock enforcer can finish a stream exactly when the downstream stream was made. A stream
  without a message, without a route, or whose downstream call cannot be made leaves its
  caller waiting for ever (`FinishedIffOpened`, `OpenFailureIsNeverReported`). And the bridge
  reports a failed downstream call as a normal end, so results are elementwise exactly when
  no element fails (`ElementwiseIff`).
- The C++ and Rust gates agree under the exact condition of `GatesAgreeIff`: the C++ server
  sets itself ready after it already listens, which can overwrite an update
  (`OverwrittenUpdate`).
- `CreateFileshare` says commits can be made any number of times. That holds exactly until a
  copy or rename breaks off half-way (`CommitsRepeatIff`): the `.tmp` file it leaves makes
  every later commit fail (`LeftoverTmpIsFatal`). The published handle is the one handed out
  exactly when it has no slash (`PublishedHandleIff`).
- Registration says a stream will be started if none is. A registration that falls between
  the end of a stream and that thread's last store is left without one
  (`RegistrationServedIff`, `LostRestart`). The thread handle is never overwritten while
  joinable exactly when registrations are serialised (`HandlesSafeIffSerial`).
- Over a run, all mapped regions are returned or still there exactly when none was received as
  items of a size that does not divide it; those that were are lost (`NothingLostIff`).
- The two kebab-case programs name the same socket exactly under the condition of
  `SameSocketIff`.
- The prefix-sum table adds in unsigned arithmetic; a lookup is defined exactly when its two
  entries lie on the same side of the wrap-around (`LookupDefinedIff`), and answers what the
  loop answers exactly for ranges not reversed past empty (`LookupRefinesLoopIff`). The looping
  service rejects the client's own expectation for the others (`ClientAcceptedIff`).

## Model

| member | source | states |
|---|---|---|
| ReactorWrites.OneWriterIsSafe | core/cpp/src/ez_isolate_bridge_server.cpp:180-190 | With one writer thread, after any interleaving of writer and completion steps, at most one write is outstanding, its response is owned by the frame or the deque and was not popped, and only responses whose own write completed were destroyed |
| ReactorWrites.OneWriterRetention | core/cpp/src/ez_isolate_bridge_server.cpp:243-249 | With one writer at most one completion of a whole run finds the deque empty; a quiescent stream retains exactly that many finished responses, the newest ones, all others were freed in write order |
| ReactorWrites.OneMissIsReachable | core/cpp/src/ez_isolate_bridge_server.cpp:186-189 | The bound is met: a completion that overtakes the push leaves one finished response in the deque |
| ReactorWrites.TwoWritersRace | core/cpp/src/ez_isolate_bridge_server.cpp:182-183 | With two or more writers a run puts two writes on the wire at once, neither response in the deque yet |
| ReactorWrites.ExclusionIffOneWriter | core/cpp/src/ez_isolate_bridge_server.cpp:180-190 | At most one write is outstanding in every run if and only if there is at most one writer |
| ReactorWrites.LifetimesIffOneWriter | core/cpp/src/ez_isolate_bridge_server.cpp:180-190 | In every run each response outlives its own write if and only if there is at most one writer |
| ReactorWrites.TwoWritersFreeEarly | core/cpp/src/ez_isolate_bridge_server.cpp:186-189 | With two or more writers a run frees a response whose write is still outstanding |
| ReactorWrites.RunKeepsInv | core/cpp/src/ez_isolate_bridge_server.cpp:180-256 | The one-writer invariant (counts of started, completed, released, pushed and freed responses, and the exact contents of wire and deque) survives every schedule |
| ReactorWrites.BlockedWriterIsLetGo | core/cpp/src/ez_isolate_bridge_server.cpp:182-190 | With any number of writers, from every reachable state with the flag set, at most three steps of whoever holds it (start the write, its completion, the release), the first of them enabled, clear it, so no writer waits for ever |
| ReactorWrites.Reactor.constructor | core/cpp/src/ez_isolate_bridge_server.cpp:171-178 | A new reactor is in the initial state, and the one-writer invariant holds |
| ReactorWrites.Reactor.WriteResponseWait | core/cpp/src/ez_isolate_bridge_server.cpp:182-182 | With one writer: when the wait returns, no write is outstanding and no completion is still to clear the flag; the invariant is kept |
| ReactorWrites.Reactor.WriteResponseStore | core/cpp/src/ez_isolate_bridge_server.cpp:183-183 | With one writer: no write is outstanding when the flag goes up; the invariant is kept |
| ReactorWrites.Reactor.WriteResponseStart | core/cpp/src/ez_isolate_bridge_server.cpp:186-186 | With one writer: the write started is the only one, and its response is alive although not yet in the deque |
| ReactorWrites.Reactor.WriteResponsePush | core/cpp/src/ez_isolate_bridge_server.cpp:188-189 | With one writer: once the frame lets go, the response of an outstanding write is in the deque |
| ReactorWrites.Reactor.WriteCompleted | core/cpp/src/ez_isolate_bridge_server.cpp:243-243 | With one writer: writes complete in the order of their acceptance and none is outstanding then |
| ReactorWrites.Reactor.OnWriteDoneRelease | core/cpp/src/ez_isolate_bridge_server.cpp:244-245 | With one writer: the flag is cleared only while no write is outstanding |
| ReactorWrites.Reactor.OnWriteDonePop | core/cpp/src/ez_isolate_bridge_server.cpp:247-249 | With one writer: what is freed is no response of an outstanding write, and at most one pop of a run finds nothing |
| StreamRouting.StreamsAreRouted | core/cpp/src/ez_isolate_bridge_server.cpp:196-241 | For every stream with a message and every interleaving with state updates: if the isolate is ready at the first message and its service is registered, the service is started with it once, the messages up to the first unroutable one follow in order, each to the service it names, then the end of the stream, and the stream is finished by a read, with UNKNOWN, exactly when there is an unroutable one; otherwise no service is reached and the stream is finished once, with UNKNOWN for an unregistered service, else with FAILED_PRECONDITION |
| StreamRouting.OneServiceStream | core/cpp/src/ez_isolate_bridge_server.cpp:196-241 | When all messages name one registered service: start with the first, forward the rest in order, close once at the end, whatever state updates come after the first message |
| StreamRouting.StartedStreamRuns | core/cpp/src/ez_isolate_bridge_server.cpp:215-240 | Once started, no state update cuts or reorders a stream, and only an unroutable message finishes it |
| StreamRouting.DeadStreamsStayDead | core/cpp/src/ez_isolate_bridge_server.cpp:198-223 | After a rejection or the end, no service is reached and the stream is not finished again by a read |
| StreamRouting.EmptyStream | core/cpp/src/ez_isolate_bridge_server.cpp:196-212 | Every stream that ends before any message, whatever updates come, is refused with UNKNOWN unless a service has the empty name, which then is told of the end |
| StreamRouting.StreamReactor.constructor | core/cpp/src/ez_isolate_bridge_server.cpp:171-178 | A read is outstanding, no message seen, nothing started |
| StreamRouting.StreamReactor.OnReadDone | core/cpp/src/ez_isolate_bridge_server.cpp:196-241 | The callback is the read step: lookup by the buffer's service, end of stream, readiness at the first message, start or forward |
| StreamBridge.OneShutdown | testing/local/stream_bridge.cc:95-131 | In every interleaving the shutdown body of Close, its TryCancel, the downstream Finish and the half-close happen at most once; Finish goes upstream once exactly when a spawned reader has left its loop and reported |
| StreamBridge.ShutdownIsComplete | testing/local/stream_bridge.cc:111-131 | In every run, once the body of Close has returned, the call was cancelled exactly once if it was made and the downstream stream finished exactly once if there was one; a destroyed bridge has run the body, cancelled and finished, once each |
| StreamBridge.ReaderJoinedOnce | testing/local/mock_enforcer.h:68-72 | The reader is joined at most once and only after it exited; a destroyed bridge has joined it exactly once, by Close or by the destructor |
| StreamBridge.InOrder | testing/local/stream_bridge.cc:67-109 | Messages written downstream are an in-order prefix of those read upstream and responses handed upstream of those read downstream; field by field, all metadata and all datagrams arrive, unset ones as their defaults, and the scope does not; at most one response is handed over after the closed flag is set |
| StreamBridge.OneMoreAfterClosing | testing/local/stream_bridge.cc:98-106 | However a run goes on once the closed flag is set, at most one more response is handed upstream |
| StreamBridge.NothingWithheld | testing/local/stream_bridge.cc:72-109 | Unless the upstream callback itself shut the bridge, everything read upstream has been written once its callback returned; every response read has been handed over unless it is just being handed |
| StreamBridge.EndIsPassedOn | testing/local/stream_bridge.cc:133-137 | From every reachable state, the end of the caller's stream is passed downstream, for the first time, exactly if the stream is open, and no read follows |
| StreamBridge.DownstreamUsedInOrder | testing/local/stream_bridge.cc:72-137 | In every interleaving a downstream write is made only on an open stream and never after WritesDone or Finish, a read never during or after Finish, and whoever waits to join the reader, Close or the destructor, has cancelled the call before |
| StreamBridge.AlwaysTearsDown | testing/local/mock_enforcer.h:121-148 | No deadlock: from every reachable state of a bridge whose downstream stream was made, some run reaches the destructor's end |
| StreamBridge.ClosedBridgeMustEnd | testing/local/stream_bridge.cc:95-131 | Once the closed flag is set, every run of the bridge's own enabled steps is bounded by a measure, and one that cannot go on has destroyed the bridge |
| StreamBridge.FinishedIffOpened | testing/local/stream_bridge.cc:40-70 | From every reachable state past the routing of the first message, the bridge can still be finished upstream, and destroyed, if and only if the downstream stream was made, which takes a first message with a route |
| StreamBridge.UnroutedNeverFinishes | testing/local/stream_bridge.cc:45-50 | In no run is anything written, half-closed, cancelled or finished downstream, a reader spawned, or the call finished or done, for a stream with no message or whose first message has no route |
| StreamBridge.OpenFailureIsNeverReported | testing/local/stream_bridge.cc:59-65 | A routed stream whose downstream call cannot be made is never finished and OnDone never comes, whatever happens then |
| StreamBridge.AnyStreamCanPass | testing/local/stream_bridge.cc:40-109 | For every non-empty routed request sequence and every response sequence some run reads, writes, receives and hands over all of it |
| StreamBridge.StepKeepsInv | testing/local/stream_bridge.cc:40-137 | Every step of every thread keeps the invariant tying flags, thread handle, program counters, tallies and message flow |
| StreamBridge.RunKeepsInv | testing/local/stream_bridge.cc:40-137 | So does every schedule |
| StreamBridge.UpKeepsLifecycle | testing/local/mock_enforcer.h:121-135 | Upstream callback steps keep flags, thread handle and tallies consistent |
| StreamBridge.DoneKeepsLifecycle | testing/local/mock_enforcer.h:139-142 | So do the steps of OnDone and the destructor |
| StreamBridge.Bridge.constructor | testing/local/mock_enforcer.h:115-119 | A new reactor: open bridge, no thread, one read outstanding; the invariant holds |
| StreamBridge.Bridge.OnReadDone | testing/local/mock_enforcer.h:121-132 | When a message arrives, every earlier one has been written, unless the callback itself shut the bridge; the invariant is kept |
| StreamBridge.Bridge.OnReadEnd | testing/local/stream_bridge.cc:133-137 | An open stream is half-closed exactly once, after everything read was written in order; a closed or unopened one is not |
| StreamBridge.Bridge.StartSpawn | testing/local/stream_bridge.cc:67-69 | The reader spawned is the only one and was never joined; by then the first message was written, or the bridge is closed |
| StreamBridge.Bridge.ForwardCheck | testing/local/stream_bridge.cc:73-75 | A write is begun only on a stream that was made and neither half-closed nor finished |
| StreamBridge.Bridge.ForwardWrite | testing/local/stream_bridge.cc:77-90 | After a write that succeeds everything read so far has been written, in order and converted; the stream was neither half-closed nor finished |
| StreamBridge.Bridge.CloseUpstream | testing/local/stream_bridge.cc:47-131 | Close from the upstream callback: the shutdown body and the join happen at most once, the reader is waited for only after the call was cancelled, and when the body has returned the downstream stream, if there is one, was finished exactly once |
| StreamBridge.Bridge.PumpCheck | testing/local/stream_bridge.cc:98-98 | A read is begun only on a stream that was made and not finished |
| StreamBridge.Bridge.PumpRead | testing/local/stream_bridge.cc:98-105 | When a read returns, every earlier response has been handed upstream |
| StreamBridge.Bridge.PumpHand | testing/local/stream_bridge.cc:99-106 | Every response read so far has been handed upstream, in order and converted, at most one after closing |
| StreamBridge.Bridge.PumpNotify | testing/local/stream_bridge.cc:108-108 | Finish goes upstream for the first time, after every response read was handed over |
| StreamBridge.Bridge.OnDone | testing/local/mock_enforcer.h:139-140 | The last callback finds the reader past its Finish and every response handed over |
| StreamBridge.Bridge.OnDoneClose | testing/local/mock_enforcer.h:140-140 | Close from OnDone: the shutdown body and the join happen at most once in all, the reader is waited for only after the call was cancelled, and before the destructor the call was cancelled and the downstream stream finished, once each |
| StreamBridge.Bridge.DestroyBridge | testing/local/mock_enforcer.h:68-72 | A destroyed bridge has an exited reader, joined exactly once, and ran the shutdown body, cancelled, finished downstream and finished upstream exactly once each |
| Calls.IdsDistinctIff | core/cpp/src/isolate_ez_bridge_client.cpp:205-205 | In every run the 64-bit ids of all calls are pairwise distinct if and only if at most 2^64 calls were made |
| Calls.CallsSettleOnce | core/cpp/src/isolate_ez_bridge_client.cpp:246-279 | With completions in any order: every call of the schedule is made with its buffer, and the first completion of each call, and no other, is handled; a call is pending exactly when it has not completed; each completion fires its own callback once, OK exactly when the reply carries that call's id, all its handles map and it has a datagram, gRPC's own status if the call failed, and else the internal error of the first check that fails; every buffer holds the first datagram of the last answering reply given to it, so an error changes no buffer |
| Calls.VerdictIff | core/cpp/src/isolate_ez_bridge_client.cpp:246-279 | The chain of checks reports OK exactly for a reply that answers the call, gRPC's own status for a failed call, and otherwise the internal error of the first check that fails |
| Calls.RegionsConserved | core/cpp/src/isolate_ez_bridge_client.cpp:464-498 | Over any run mapped = returned + lost + still on the stack, as multisets; no region is returned twice; what is on the stack was neither returned nor lost, and the top is the most recently mapped of it |
| Calls.MappedIsContributed | core/cpp/src/isolate_ez_bridge_client.cpp:258-267 | The regions mapped are exactly those before the first mapping failure of each response that carried its call's id, in completion order |
| Calls.NothingLostIff | core/cpp/src/isolate_ez_bridge_client.h:172-182 | Over any run the lost regions are, in order, those popped by a receive whose item size does not divide them; mapped = returned + still on the stack if and only if the run has no such receive |
| Calls.ARegionIsLost | core/cpp/src/isolate_ez_bridge_client.h:172-182 | A run that loses a region: three bytes received as two-byte items |
| Calls.CallClient.constructor | core/cpp/src/isolate_ez_bridge_client.cpp:127-127 | No call made, counter zero, nothing mapped; the invariant holds |
| Calls.CallClient.AsyncIsolateRpcCall | core/cpp/src/isolate_ez_bridge_client.cpp:205-210 | The call's id differs from the id of each of the last 2^64 - 1 calls; the invariant over ids, callbacks, buffers and regions is kept |
| Calls.CallClient.OnInvokeEzDone | core/cpp/src/isolate_ez_bridge_client.cpp:246-279 | This call's callback was never fired before and is fired now, with OK, gRPC's own status or the internal error of the first failing check; only an answer to this call changes a buffer; the completion is the machine's step |
| Calls.CallClient.MapHandles | core/cpp/src/isolate_ez_bridge_client.cpp:258-267 | The loop pushes the regions before the first failure, in order, and succeeds exactly when there is none |
| Calls.CallClient.ReceiveMemShare | core/cpp/src/isolate_ez_bridge_client.h:172-182 | Returns the most recently mapped region left, whole as a number of items, never returned before; returns nothing exactly when there is none or its size is no multiple of the item size |
| Fileshare.CreateEffect | core/cpp/src/isolate_ez_bridge_client.cpp:305-320 | For every disk and handle: both files are there and empty afterwards, every other file is as before, and the share is ready, and a first commit succeeds, exactly when no .tmp was there before |
| Fileshare.FileNames | core/cpp/src/isolate_ez_bridge_client.cpp:307-309 | The shared, staging and temporary files of a handle spelled out |
| Fileshare.CommitSucceedsIff | core/cpp/src/isolate_ez_bridge_client.cpp:323-362 | A commit succeeds exactly when the path is a staging path, the staging file exists, no .tmp is in the way and the environment does not interfere; otherwise its status names the first of these that fails |
| Fileshare.CommitEffect | core/cpp/src/isolate_ez_bridge_client.cpp:335-361 | Any commit leaves staging intact and every other file but .tmp alone; one that got past the rename leaves the whole snapshot shared, no .tmp, and published once, last, after the rename; any other leaves the shared file and publishes nothing |
| Fileshare.CommitStates | core/cpp/src/isolate_ez_bridge_client.cpp:335-348 | In every state of the disk during a commit a file is as before, or is the shared file with the complete snapshot |
| Fileshare.ReadersSeeSnapshots | core/cpp/src/isolate_ez_bridge_client.cpp:305-362 | At every intermediate step of any serial run, on any number of shares and with any failures, a reader of the shared file sees its old content, an empty new file, or a complete snapshot of the staging file at the start of a commit |
| Fileshare.ReadersMoveForward | core/cpp/src/isolate_ez_bridge_client.cpp:323-362 | What a reader sees inside the k-th operation is the shared file before or after that very operation |
| Fileshare.CommitsRepeatIff | core/cpp/src/isolate_ez_bridge_client.h:129-143 | After any run on any number of shares, a share is ready for another commit if and only if none of its own commits broke off after .tmp was begun and no commit whose shared file is that .tmp went through; until then each of its commits reports what its own fault alone decides |
| Fileshare.FailureLeavesTmp | core/cpp/src/isolate_ez_bridge_client.cpp:335-348 | A failing rename, or a copy that breaks off, leaves .tmp behind |
| Fileshare.LeftoverTmpIsFatal | core/cpp/src/isolate_ez_bridge_client.cpp:337-341 | With .tmp left behind, every later commit of the share fails in any run, .tmp stays, and the shared file never shows new content |
| Fileshare.PublishedHandleIff | core/cpp/src/isolate_ez_bridge_client.cpp:349-350 | The handle derived from the path is the one CreateFileshare returned if and only if it contains no slash |
| Fileshare.FileshareClient.CreateFileshare | core/cpp/src/isolate_ez_bridge_client.cpp:305-320 | Returns the two paths; both files are there and empty afterwards, shared file first, every other file is as before, and a commit can follow exactly when no .tmp was in the way |
| Fileshare.FileshareClient.CommitFileChanges | core/cpp/src/isolate_ez_bridge_client.cpp:323-362 | Status, every effect in order, and the final disk are those of the commit specification |
| Subscription.OneReadLoop | core/cpp/src/isolate_ez_bridge_client.cpp:372-413 | With any number of concurrent registrars, across stream end and restart, at most one subscription thread is in its read loop |
| Subscription.StepMovesToken | core/cpp/src/isolate_ez_bridge_client.cpp:372-409 | The flag is a token: exactly one registrar or thread holds it while it is set; winning the exchange takes it, spawning hands it on, the thread's last store returns it |
| Subscription.RegistrationServedIff | core/cpp/src/isolate_ez_bridge_client.cpp:372-374 | In every reachable state, a registration that makes the exchange leaves events being read or a stream being started if and only if it does not fall between a stream's end and that thread's last store |
| Subscription.LostRestart | core/cpp/src/isolate_ez_bridge_client.cpp:372-409 | A run in which a handler is registered and no stream runs or is being started |
| Subscription.JoinReturns | core/cpp/src/isolate_ez_bridge_client.cpp:383-387 | With any number of registrars, in every reachable state, a registrar that is to join the old thread can do so at once or after that thread's last step, which is enabled |
| Subscription.SerialRegistrationsJoin | core/cpp/src/isolate_ez_bridge_client.cpp:384-387 | With serialised registrations no joinable handle is overwritten, and every thread but the newest has exited and been joined |
| Subscription.TwoRegistrarsDrop | core/cpp/src/isolate_ez_bridge_client.cpp:411-412 | With two registrars a run overwrites a joinable handle |
| Subscription.HandlesSafeIffSerial | core/cpp/src/isolate_ez_bridge_client.cpp:383-413 | No run overwrites a joinable handle if and only if there is at most one registrar |
| Subscription.LogsAreExact | core/cpp/src/isolate_ez_bridge_client.cpp:364-407 | Over any run each handler's log is exactly the fileshare events that the schedule brings to a thread in its read loop while the handler is registered, in order, once each; calls go event by event and, within one event, in registration order |
| Subscription.StarterMissesNothing | core/cpp/src/isolate_ez_bridge_client.cpp:364-413 | The handler whose registration started a stream has seen every fileshare event the schedule brings to it, unless the list was cleared since |
| Subscription.EventClient.constructor | core/cpp/src/isolate_ez_bridge_client.cpp:591-595 | No handler, no thread, flag false; the token and log invariants hold |
| Subscription.EventClient.RegisterPush | core/cpp/src/isolate_ez_bridge_client.cpp:368-371 | The handler was not on the list and is now, at its end; the token and log invariants are kept |
| Subscription.EventClient.RegisterExchange | core/cpp/src/isolate_ez_bridge_client.cpp:372-374 | Whoever goes on to start a stream is the only one to do so, and no thread is in its read loop |
| Subscription.EventClient.StartJoin | core/cpp/src/isolate_ez_bridge_client.cpp:385-387 | With serialised registrations every thread has now exited and been joined |
| Subscription.EventClient.StartSpawn | core/cpp/src/isolate_ez_bridge_client.cpp:411-412 | The new thread is the only one in its read loop, and nobody is about to start another |
| Subscription.EventClient.StartAssign | core/cpp/src/isolate_ez_bridge_client.cpp:411-412 | With serialised registrations no joinable handle is overwritten |
| Subscription.EventClient.ClearHandlers | core/cpp/src/isolate_ez_bridge_client.cpp:377-380 | No handler is registered any more |
| Subscription.EventClient.DispatchEvent | core/cpp/src/isolate_ez_bridge_client.cpp:398-407 | The loop adds a fileshare event to the log of every registered handler once and to no other, any other event to none; the thread is the only reader |
| Subscription.EventClient.ReleaseToken | core/cpp/src/isolate_ez_bridge_client.cpp:409-409 | No thread reads events and none is being started, so the next registration starts one |
| Readiness.GatesAgreeIff | core/cpp/src/ez_isolate_bridge_server.cpp:352-419 | Over every history of updates with any integers and of the C++ server's own SetReady: if SetReady came last, the two gates agree, and the states too, exactly when the updates left Rust ready; otherwise the gates agree exactly when there was an update and the states exactly when the last one named a known state; neither stores STARTING; Rust's state is its last reply, that of C++ exactly when SetReady did not overwrite it with something else |
| Readiness.OverwrittenUpdate | core/cpp/src/ez_isolate_bridge_server.cpp:454-456 | An update to RETIRING handled before the server's own SetReady is overwritten: C++ admits work, Rust does not |
| Readiness.LastChangeWins | core/rust/src/rpc_dispatcher.rs:264-281 | After any non-empty sequence of changes the stored state is what the last one stores |
| Dispatch.StreamOutput | core/rust/src/rpc_dispatcher.rs:198-262 | An admitted stream reaches its handler whole; the output is the handler's in length, order and errors, each success with the first message's id and the local flag and nothing else changed; every other path yields exactly one error: that of an empty stream, of the first item, of the first hurdle (metadata, readiness, service), or the handler's own |
| Dispatch.UnaryOutput | core/rust/src/rpc_dispatcher.rs:161-195 | A unary request succeeds exactly when it has metadata, the isolate is ready, the service is registered, there is a datagram and the handler succeeds on the first; the answer is the handler's with the request's id and the local flag; otherwise the status is that of the first hurdle or the handler's own |
| Dispatch.PeekLosesNothing | core/rust/src/rpc_dispatcher.rs:204-205 | Peeking leaves the stream's contents as they were and shows the first item |
| Dispatch.RpcDispatcher.constructor | core/rust/src/rpc_dispatcher.rs:100-109 | One service under its name, isolate ready, no update yet |
| Dispatch.RpcDispatcher.AddService | core/rust/src/rpc_dispatcher.rs:119-122 | Requests to the name resolve to this service from now on, all others as before |
| Dispatch.RpcDispatcher.UpdateIsolateState | core/rust/src/rpc_dispatcher.rs:264-281 | Over any calls on the object the state is that of all its updates in order, the one the agreement theorem speaks of; work is admitted afterwards exactly when this update asks for STARTING or READY; the reply is the stored state |
| Dispatch.RpcDispatcher.StreamInvokeIsolate | core/rust/src/rpc_dispatcher.rs:198-262 | The generator loop yields the specified output, item by item |
| Dispatch.CppUnaryOutput | core/cpp/src/ez_isolate_bridge_server.cpp:87-161 | A unary request succeeds exactly when the isolate is ready, the service is registered under its own name, there is a datagram and the handler succeeds on all of them; the answer carries the handler's bytes and handles, the request's id, the local flag and scope 0; otherwise the status is that of the first hurdle or the handler's own |
| Dispatch.AddIsolateRpcService | core/cpp/src/ez_isolate_bridge_server.cpp:410-411 | A free name gets this very service, an earlier service of that name stays, all others stay, and services stay keyed by their own name |
| Dispatch.EzIsolateBridge.constructor | core/cpp/src/ez_isolate_bridge_server.cpp:302-305 | Requests to the service's name, and to no other, are answered by this service; state unspecified, no work admitted, no change yet |
| Dispatch.EzIsolateBridge.AddService | core/cpp/src/ez_isolate_bridge_server.cpp:369-412 | A request to the name is answered by this service if the name was free, else by the one that has it; all others are answered as before |
| Dispatch.EzIsolateBridge.SetIsolateReady | core/cpp/src/ez_isolate_bridge_server.cpp:414-419 | Work is admitted, whatever was asked before; the state stays that of the history of changes |
| Dispatch.EzIsolateBridge.UpdateIsolateState | core/cpp/src/ez_isolate_bridge_server.cpp:352-367 | Over any calls on the object the state is that of its history of changes; work is admitted afterwards exactly when this update asks for STARTING or READY; the reply is the stored state |
| Dispatch.BridgesAgreeIff | core/cpp/src/ez_isolate_bridge_server.cpp:87-161 | For every request with metadata, to isolates with services of the same names: the C++ and Rust bridges give the same payload, id and local flag, or the same error code, if and only if the isolate is not ready, or the service is registered and the handlers, if reached, came to the same outcome, C++ on all datagrams and Rust on the first; an unregistered service is UNKNOWN against NOT_FOUND |
| Dispatch.MissingMetadata | core/rust/src/rpc_dispatcher.rs:124-139 | Without metadata Rust refuses with INVALID_ARGUMENT; C++ succeeds exactly if it is ready, a service has the empty name and its handler succeeds on the datagrams |
| Transparency.UnaryIsTransparent | core/rust/src/rpc_handler.rs:105-161 | For every message and id, a unary call through client, mock enforcer, dispatcher and adapter returns exactly what the method computes, success or error; the id check passes and no codec error shows; otherwise the code tells missing route, not ready, unknown service, unknown method |
| Transparency.UnaryOutcome | testing/local/mock_enforcer.cc:120-182 | For any codecs: the call returns the exact status of the first hurdle, or what the method makes of the message as the service decodes it, as the client decodes that |
| Transparency.AcceptIff | core/rust/src/rpc_handler.rs:137-161 | Whatever reply arrives from any enforcer: a failure is passed on, a reply to another call, without a datagram or undecodable is an internal error, and a message comes only from the first datagram of a reply to this very call |
| Transparency.StreamIsTransparent | core/rust/src/rpc_handler.rs:182-203 | For every non-empty message sequence and every bridge run that carried it, the client reads exactly the service's answers before its first error, in order, and nothing if the service refuses the stream |
| Transparency.ElementwiseIff | testing/local/stream_bridge.cc:95-109 | For a method that maps its stream element by element, the client reads the elementwise results if and only if no element fails |
| Transparency.RefusedStreamLooksEmpty | testing/local/stream_bridge.cc:95-109 | A stream refused by the isolate (not ready, or service not offered) reaches the client as an empty one |
| Transparency.StreamCanBeCarried | testing/local/stream_bridge.cc:40-109 | For every non-empty routed request stream there is a run that carries it with all its answers |
| Transparency.ServedItems | core/rust/src/utils.rs:88-127 | The service receives exactly the messages sent; its answers come out in order, each with the stream's id, the local flag, the service's scope and the encoded message, errors as they are |
| Transparency.AdapterKeepsStreams | tools/plugin/tmpl/isolate_rpc_service.rs.jinja2:161-186 | For any codecs and any stream: the service sees every item in order as its message or the error that stands for it, its answers go out in order, an unknown method is UNIMPLEMENTED |
| Transparency.RequestsArrive | core/rust/src/rpc_handler.rs:60-83 | In every carrying run each message reaches the isolate with the client's id, domain, service, method and local flag and its encoding as the only datagram; its scope reaches the enforcer |
| Substitution.SubstituteIsLocal | tools/plugin/ez_sdk.py:59-70 | Leftmost non-overlapping substitution equals the rule that looks at each position alone, for every string and every pattern that cannot overlap itself |
| Substitution.PairNeverOverlaps | tools/plugin/ez_sdk.py:59-59 | The lower-upper pattern cannot overlap itself |
| Substitution.TripleNeverOverlaps | tools/plugin/ez_sdk.py:61-61 | Nor can the upper-upper-lower pattern |
| Substitution.ToLowerTable | tools/plugin/ez_sdk.py:70-70 | Lower-casing maps each capital to the small letter in the same place of the alphabet and keeps everything else |
| Substitution.ClassTable | tools/plugin/ez_sdk.py:59-61 | The character classes are the capitals, and the small letters with the ten digits |
| Snakecase.SnakecaseIsRuled | tools/plugin/ez_sdk.py:64-70 | For every string the two passes equal one rule: an underscore before an uppercase letter exactly when the previous character is lowercase or a digit, or is uppercase while the next is lowercase or a digit |
| Snakecase.DeletingInserted | tools/plugin/ez_sdk.py:64-70 | What the rule inserted is underscores, and deleting them gives back the lower-cased input |
| Snakecase.SnakecaseIdempotent | tools/plugin/ez_sdk.py:64-70 | A second application changes nothing |
| Kebab.KebabCase | testing/local/mock_enforcer.cc:85-97 | The loop computes the fold of its step over the name |
| Kebab.PipelineIsScan | testing/local/test_isolate:373-375 | The sed and tr pipeline equals one left-to-right scan |
| Kebab.PipelineAgreesIff | testing/local/mock_enforcer.cc:85-97 | Loop and pipeline agree if and only if no separator leads or follows a separator or hyphen, and every later uppercase letter follows a lowercase letter, digit, separator or hyphen |
| Kebab.EchoOptionIff | testing/local/test_isolate:374-374 | What echo takes for an option is exactly a hyphen followed by one or more of n, e, E |
| Kebab.KebabsAgreeIff | testing/local/test_isolate:373-381 | With echo and command substitution: the two agree if and only if, besides, the name is no echo option and does not end in a newline |
| Kebab.SameSocketIff | testing/local/mock_enforcer.cc:101-111 | Under exactly that condition the address in the routing table leads to the socket path the script passes to the isolate |
| Summation.PrecomputeTable | examples/summation_by_lookup_table_with_backend/server/summation_precomputed_backend.cc:101-105 | Filled in place: element i is element 0 plus 1 + ... + i, modulo 2^64; an empty table is left alone |
| Summation.LookupService.IntegerSequence | examples/summation_by_lookup_table_with_backend/server/summation_by_lookup_table_with_backend.cc:96-124 | Over a table of up to 2^20 prefix sums from zero: the closed form, checked against the expectation, exactly for bounds inside the table, otherwise out of bounds; over any table, the lookup the other theorems are about |
| Summation.LoopIntegerSequence | examples/summation_by_looping_monolithic_server/server/summation_by_looping_monolithic_server.cc:42-63 | For all 64-bit bounds: the loop answers the sum of all integers from start to end, checked, if and only if the counter stops short of the largest value and the running sum fits at its lowest point and at the end; otherwise it meets a signed overflow |
| Summation.ClosedFormIsSum | examples/summation_by_lookup_table_with_backend/client/src/lib.rs:59-61 | For all integers the closed form is the sum if start <= end + 1, and minus the sum over end + 1 .. start - 1 otherwise |
| Summation.LookupIsClosedForm | examples/summation_by_lookup_table_with_backend/server/summation_by_lookup_table_with_backend.cc:106-114 | For any table without wrap-around, whatever element 0 holds, every accepted lookup that fits answers the closed form; it is the loop's sum if and only if start <= end + 1, otherwise minus the sum in between |
| Summation.LookupDefinedIff | examples/summation_by_lookup_table_with_backend/server/summation_by_lookup_table_with_backend.cc:113-113 | For tables of up to 2^20 entries and any element 0 the lookup is defined if and only if both entries lie on the same side of the wrap-around, and then it is the closed form |
| Summation.LookupRefinesLoopIff | examples/summation_by_lookup_table_with_backend/server/summation_by_lookup_table_with_backend.cc:96-124 | For bounds inside the example's table, lookup and loop give the same answer if and only if start <= end + 1 |
| Summation.WrongExpectationIsRefused | examples/summation_by_lookup_table_with_backend/server/summation_by_lookup_table_with_backend.cc:113-123 | Inside the example's table both services answer their own sum exactly when the expectation is 0 or that sum, and otherwise report a mismatch |
| Summation.ExampleFitsInt64 | examples/summation_by_lookup_table_with_backend/server/summation_precomputed_backend.cc:101-109 | With element 0 zero and up to 2^20 entries no table entry, lookup, product or difference leaves 64 bits |
| Summation.ClientSendsIff | examples/summation_by_lookup_table_with_backend/client/src/lib.rs:59-61 | In 64-bit arithmetic: with overflow checks the client computes the closed form exactly for -3037000500 <= end <= 3037000499 and -3037000499 <= start <= 3037000500 and otherwise stops; without them it computes it exactly when twice its value fits |
| Summation.ClientAcceptedIff | examples/summation_by_lookup_table_with_backend/client/src/lib.rs:51-61 | For every request the client sends, with or without overflow checks: the lookup service accepts it exactly for bounds inside the table; the looping service if and only if it meets no overflow and, where the expectation is the closed form, start <= end + 1 or start + end = 0, and elsewhere the wrapped expectation is 0 |

## Left out

- gRPC, tonic, protobuf and abseil internals: taken as the step contracts and the abstract codec listed above.
- Exactly-once `Finish` on the C++ reactor, and `OnDone` not deleting it for an unknown service: several paths can each finish, so the code alone does not give it; reads record which finishes they cause, failing writes do not.
- Lifetime of the response passed on in `HandleDownstreamResponse`: delivery upstream is by value.
- The method handler override of the precomputed backend, which adds its handle after its callback may have run: handles count as present when the handler is done.
- The local-handler fast path of the C++ client: it is never taken.
- Opening, stat and mmap of shared memory: a handle either maps to a region of some size or fails.
- The client's destructor and the replacement of the subscription's context object.
- C++ streaming services below `IsolateStreamRpcMethodHandler`, and the streaming variants of the summation services: loops around what is modelled.
- Channels, the ready FIFO, retries, tracing, flags, environment variables, logging.
- Code generation templates other than the two handlers of the Rust service adapter; macros; descriptor handling.
- functionaltest-system, build files, manifests, benchmark clients, status conversions: orchestration, data or easy members.
- Formatted tails of status messages, and metadata fields no modelled code reads.
- Calls.CallClient.OnInvokeEzDone: runs as one step; the stack of received regions has no lock in the source, so completions overlapping each other or ReceiveMemShare are not covered.
- Calls.CallClient.ReceiveMemShare: the element type enters only by its size; the empty vectors of an empty region and of no region are told apart here.
- Dispatch.BridgesAgreeIff: requests without metadata are MissingMetadata's.
- Transparency.StreamIsTransparent: about streams with at least one message, because an empty one is never opened (FinishedIffOpened).
