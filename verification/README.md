# ReactivePlusPlus: gRPC reactors and small operators, modelled in Dafny

This project models two parts of ReactivePlusPlus.

The first is the **rppgrpc reactor bridge**. It connects a push-based
producer of requests and an observer of responses to gRPC's callback
reactors. The project models:

- the client `bidi_reactor`, `write_reactor` and `read_reactor`;
- the server `server_bidi_reactor`, `server_write_reactor` and `server_reader_reactor`;
- the older client `bidi_reactor` and `read_reactor` of `reactor.hpp`, which report typed errors and ignore the final status;
- `add_reactor` and `make_server_reactor`.

Each reactor is an immutable record (`Reactor.Reactor`) with these fields:

- a write queue, whose front is the write in flight;
- a read slot, and whether a read is armed;
- whether the reactor has destroyed itself, and whether it has disposed its subscription;
- a log of the requests it made to the gRPC runtime (`StartCall`, `StartRead`, `StartWrite`, `StartWritesDone`, `Finish`, `StartSendInitialMetadata`, and the binding by the stub method);
- a log of what its observer received.

Each callback is a pure function. `delete this` is a `destroyed` flag, and every callback requires a live reactor.

`Bridge` drives a reactor with any sequential interleaving of producer and runtime events. It proves what holds after every such trace:

- the observer gets at most one terminal notification, and only as the last one;
- writes go out in enqueue order, one at a time;
- at most one read is armed;
- the observer of every reactor that reads receives exactly the values read;
- the client write reactor's observer receives nothing while the call lasts, then the stored response and completion if the call ends OK, or one error otherwise.

The second part is three **reactive operators** and the frame they plug into:

- `operator_strategy_base` and the forwarding strategies (`OperatorStrategy`);
- `distinct_until_changed` (`DistinctUntilChanged`);
- the completion counter of `merge`, and `merge_with` (`Merge`).

Modules, one per file:

- `optional.dfy`: the optional value.
- `notifications.dfy`: on_next/on_error/on_completed.
- `grpc.dfy`: statuses, runtime requests, error kinds.
- `write_queue.dfy`: the queue discipline.
- `reactor.dfy`: the reactors.
- `bridge.dfy`: traces and their theorems.
- `scenarios.dfy`: concrete calls, including the ones the client test makes.
- `strategy.dfy`, `distinct_until_changed.dfy` and `merge.dfy`: the operators.

Some behaviour of the code that the model follows as written:

- A failed read is reported with the text "OnReadDone is not ok" (client_reactor.hpp:60, server_reactor.hpp:56, reactor.hpp:60). A failed write is reported with "OnWriteDone is not ok" (client_reactor.hpp:72, server_reactor.hpp:68, reactor.hpp:72).
- `client_reactor.hpp` and `server_reactor.hpp` raise `rppgrpc::utils::reactor_faield`. `utils/exceptions.hpp` declares only `on_read_done_not_ok` and `on_write_done_not_ok` (lines 17-24), which `reactor.hpp` raises. The model has one error kind per type, with `ReactorFailed` for `reactor_faield`.
- Teardown has no guard against running twice. `Destroy` disposes the subscription and then deletes the reactor (client_reactor.hpp:100-104). So "exactly one terminal notification" holds because no callback reaches a destroyed reactor. Teardown itself is not idempotent.
- The client `bidi_reactor::Init` issues `StartRead` before `StartCall` (client_reactor.hpp:51-52). The client read reactor and both older reactors issue `StartCall` first (client_reactor.hpp:214-215, reactor.hpp:51-52 and 127-128).
- The server reactors' `OnDone` takes no status (server_reactor.hpp:82, 150, 201), and the older reactors ignore theirs (reactor.hpp:86, 144).

## Model

| member | source | states |
|---|---|---|
| WriteQueue.Push | src/extensions/rppgrpc/rppgrpc/client_reactor.hpp:126-130 | the message joins the tail; a write of it is issued exactly when the queue was empty; the writes issued followed by the messages behind the front grow by exactly that message |
| WriteQueue.Pop | src/extensions/rppgrpc/rppgrpc/client_reactor.hpp:156-162 | exactly the front leaves the queue; a write of the new front is issued exactly when the queue is still non-empty; the writes issued followed by the messages behind the front do not change |
| Reactor.Construct | src/extensions/rppgrpc/rppgrpc/server_reactor.hpp:33-49 | a new reactor has an empty queue, an empty observer and the initial read slot; a server reactor sends the initial metadata and then arms its first read if it reads; a client reactor issues nothing |
| Reactor.Init | src/extensions/rppgrpc/rppgrpc/client_reactor.hpp:49-53 | client bidi: StartRead then StartCall; client read and both older reactors: StartCall then StartRead (lines 212-216 and reactor.hpp 49-53, 125-129); client write: StartCall only (lines 141-144); nothing else changes |
| Reactor.AddReactor | src/extensions/rppgrpc/rppgrpc/client_reactor.hpp:257-302 | the reactor is constructed, bound by the stub method, then started, so Bind is the first request, followed by the Init requests of its shape; the reactor is fresh |
| Reactor.MakeServerReactor | src/extensions/rppgrpc/rppgrpc/server_reactor.hpp:223-239 | responses and requests give a reactor that writes and reads; requests alone, one that only reads; responses alone, one that only writes; it sends the initial metadata, then arms a read exactly when it reads |
| Reactor.Destroy | src/extensions/rppgrpc/rppgrpc/client_reactor.hpp:100-104 | the reactor is destroyed; its subscription is disposed if it holds one (the client read reactors hold none, lines 244-248); nothing else changes |
| Reactor.Enqueue | src/extensions/rppgrpc/rppgrpc/client_reactor.hpp:35-39 | the producer's message joins the tail; StartWrite of it is issued exactly when the queue was empty before, and otherwise no request is issued; nothing else changes |
| Reactor.ProducerError | src/extensions/rppgrpc/rppgrpc/client_reactor.hpp:40-42 | a producer error issues exactly StartWritesDone on a client and Finish(INTERNAL, "Internal error happens") on a server (server_reactor.hpp 40-42); the observer and everything else are untouched |
| Reactor.ProducerCompleted | src/extensions/rppgrpc/rppgrpc/client_reactor.hpp:43-45 | producer completion issues exactly StartWritesDone on a client and Finish(OK) on a server (server_reactor.hpp 43-45); nothing else changes |
| Reactor.OnReadDone | src/extensions/rppgrpc/rppgrpc/client_reactor.hpp:56-66 | success: the observer gets exactly the slot's message, and exactly one new StartRead is armed; failure: the observer gets one error with the text "OnReadDone is not ok", of kind on_read_done_not_ok on the older reactors (reactor.hpp 56-62) and reactor_faield on the others, nothing is re-armed, and the reactor is destroyed |
| Reactor.OnWriteDone | src/extensions/rppgrpc/rppgrpc/client_reactor.hpp:68-84 | success: exactly the front is popped and the new front is written if there is one, and the observer, the slot and the read loop are untouched; failure: nothing is popped or written, the observer (if any, server_reactor.hpp 133-139) gets one error with the text "OnWriteDone is not ok", of kind on_write_done_not_ok on the older reactor (reactor.hpp 68-75) and reactor_faield on the others, and the reactor is destroyed |
| Reactor.OnDone | src/extensions/rppgrpc/rppgrpc/client_reactor.hpp:86-97 | client bidi and read: completion on OK, otherwise an error with the status message; client write: the response then completion on OK (lines 165-177); server bidi and reader and both older reactors: completion whatever the status; server writer: nothing; then the reactor is destroyed |
| Reactor.DoneIgnoresStatus | src/extensions/rppgrpc/rppgrpc/reactor.hpp:144-148 | for the server and older reactors, the call's end has the same effect whatever the status |
| Bridge.Start | src/extensions/rppgrpc/rppgrpc/reactor.hpp:163-192 | a call starts from a fresh reactor of its shape: nothing queued, nothing received, not destroyed, with a read armed exactly when it reads |
| Bridge.StartInv | src/extensions/rppgrpc/rppgrpc/server_reactor.hpp:46-49 | the invariant holds for a fresh reactor: no writes issued, and the reads issued are the one armed |
| Bridge.RunInv | src/extensions/rppgrpc/rppgrpc/server_reactor.hpp:82-93 | along every trace, a live reactor has told its observer nothing terminal and has a read armed exactly when it reads; a destroyed reactor with an observer has ended it exactly once; the subscription is disposed exactly when a reactor holding one is destroyed; the queue front is the last message written; the client write reactor's observer has nothing while the call lasts, and at its end either the stored response and completion or one error |
| Bridge.RunWrites | src/extensions/rppgrpc/rppgrpc/server_reactor.hpp:73-79 | along every trace, the writes issued followed by the messages behind the write in flight grow by exactly the messages pushed, in order |
| Bridge.RunFlight | src/extensions/rppgrpc/rppgrpc/server_reactor.hpp:141-147 | along every trace, the writes issued are the writes confirmed plus the one in flight, which exists exactly when the queue is non-empty |
| Bridge.RunReads | src/extensions/rppgrpc/rppgrpc/server_reactor.hpp:188-198 | along every trace of every reactor, the reads issued are the completed ones plus the one armed |
| Bridge.RunReadValues | src/extensions/rppgrpc/rppgrpc/server_reactor.hpp:188-198 | along every trace of every reactor except the client writer, whose observer Bridge.ClientWriteOutcome covers, the observer's values grow by exactly the values read successfully, in order |
| Bridge.BridgeTheorem | src/extensions/rppgrpc/rppgrpc/client_reactor.hpp:35-104 | for every shape and every trace that can reach it: at most one terminal notification, and only last; one exactly when a reactor with an observer is destroyed; disposal exactly on destruction; writes issued ++ backlog == messages pushed; writes issued == confirmed + in flight; reads issued == completed + armed; for every shape but the client writer, values received == values read; for the client writer, no notification while live and, once destroyed, the stored response and completion or one error |
| Bridge.RunSlot | src/extensions/rppgrpc/rppgrpc/client_reactor.hpp:138 | along every trace of a reactor that reads nothing, the slot holds the last response the runtime stored, or the initial value if it stored none |
| Bridge.ClientWriteOutcome | src/extensions/rppgrpc/rppgrpc/client_reactor.hpp:165-177 | over a whole client-streaming call: the observer has received nothing while the call lasts; when it ends with a status, the observer gets the last stored response and completion if the status is OK, and otherwise one error carrying the status message |
| Bridge.WritesInEnqueueOrder | src/extensions/rppgrpc/rppgrpc/client_reactor.hpp:77-83 | the writes issued are a prefix of the messages pushed, and while a write is in flight the messages pushed are the writes issued followed by those waiting behind it |
| Scenarios.BidiRoundTrip | src/tests/rppgrpc/test_async_client.cpp:87-118 | a bidi call that writes 10, reads 3 and ends OK issues Bind, StartRead, StartCall, StartWrite(10), StartRead; its observer gets 3 then completion; the reactor is destroyed and its subscription disposed |
| Scenarios.BidiWrites | src/tests/rppgrpc/test_async_client.cpp:45-53 | writing 10, 3, 15, 20, each confirmed, issues one StartWrite of each, in that order, and leaves the queue empty |
| Scenarios.BidiReads | src/tests/rppgrpc/test_async_client.cpp:63-78 | reading 3, 5, 2, 1 delivers each value right after its read, in order, with one StartRead per read |
| Scenarios.WriteFailure | src/tests/rppgrpc/test_async_client.cpp:55-60 | a failed write gives the observer exactly one error, "OnWriteDone is not ok", and tears the reactor down; the server writer tears down with nothing to tell |
| Scenarios.ReadFailure | src/tests/rppgrpc/test_async_client.cpp:79-84 | a failed first read gives the observer exactly one error, "OnReadDone is not ok", typed on the older reactor, and re-arms nothing |
| Scenarios.ClientStreaming | src/extensions/rppgrpc/rppgrpc/client_reactor.hpp:165-177 | writes 1, 2, 3 and producer completion issue StartWritesDone; the observer sees nothing until OK ends the call, then the response 30 and completion |
| Scenarios.WritesDoneBeforeQueuedWrite | src/extensions/rppgrpc/rppgrpc/client_reactor.hpp:35-45 | a producer that completes while a message is still queued makes the reactor issue StartWritesDone before the StartWrite of that message |
| Scenarios.ServerProducerError | src/extensions/rppgrpc/rppgrpc/server_reactor.hpp:119-121 | a server writer whose producer fails finishes the call with INTERNAL "Internal error happens" and tells no observer |
| Scenarios.FailedStatus | src/extensions/rppgrpc/rppgrpc/reactor.hpp:86-90 | a failed status reaches the client bidi reactor's observer as an error with its message, while the older bidi reactor completes |
| OperatorStrategy.ForwardOnNext | src/rpp/rpp/operators/details/strategy.hpp:93-100 | the value reaches the observer unchanged and nothing else changes |
| OperatorStrategy.ForwardOnError | src/rpp/rpp/operators/details/strategy.hpp:102-108 | the error reaches the observer unchanged and nothing else changes |
| OperatorStrategy.ForwardOnCompleted | src/rpp/rpp/operators/details/strategy.hpp:110-116 | completion reaches the observer and nothing else changes |
| OperatorStrategy.ForwardSetUpstream | src/rpp/rpp/operators/details/strategy.hpp:118-122 | the observer is handed the same disposable and nothing else changes |
| OperatorStrategy.ForwardingTransparent | src/rpp/rpp/operators/details/strategy.hpp:64-132 | a frame around the forwarding strategy is transparent: construction changes nothing; it is disposed exactly when its observer is, before and after any stream; any stream of notifications reaches the observer exactly as sent; set_upstream hands the observer the same disposable and changes nothing else |
| DistinctUntilChanged.DistinctOnNext | src/rpp/rpp/operators/distinct_until_changed.hpp:30-37 | a value is dropped, leaving the frame unchanged, exactly when a last value exists and the comparator calls the new value equal to it; otherwise the value becomes the last value and reaches the observer unchanged; the first value always passes |
| DistinctUntilChanged.Distinct | src/rpp/rpp/operators/distinct_until_changed.hpp:32-36 | at most as many values come out as go in, and the first value passes whenever it is not suppressed, in particular when nothing was emitted before |
| DistinctUntilChanged.StepSemantics | src/rpp/rpp/operators/distinct_until_changed.hpp:32-35 | a suppressed value contributes nothing and does not become the last value; any other value is emitted and becomes the last value; with no last value the first value is emitted |
| DistinctUntilChanged.OutputIsSubsequence | src/rpp/rpp/operators/distinct_until_changed.hpp:35-36 | the output is the input with some values left out, each unchanged and in order |
| DistinctUntilChanged.NoAdjacentDuplicates | src/rpp/rpp/operators/distinct_until_changed.hpp:57-58 | with plain equality no two neighbours of the output are equal, and the first output differs from the value emitted before |
| DistinctUntilChanged.EqualityDropsRepeats | src/rpp/rpp/operators/distinct_until_changed.hpp:66 | with plain equality the operator equals the reference that keeps a value exactly when it differs from the previous input |
| DistinctUntilChanged.Marble | src/rpp/rpp/operators/distinct_until_changed.hpp:60-64 | 1 1 2 2 3 2 1 comes out as 1 2 3 2 1 |
| DistinctUntilChanged.ComparesWithLastEmitted | src/rpp/rpp/operators/distinct_until_changed.hpp:27-35 | the comparison is against the last emitted value: with "within one" as comparator, 1 2 3 gives 1 3, and 3 is the last value kept |
| DistinctUntilChanged.ForwardingMembers | src/rpp/rpp/operators/distinct_until_changed.hpp:39-43 | subscribing changes nothing, the frame is disposed exactly when its observer is, and errors and completion reach the observer unchanged without touching the last value |
| DistinctUntilChanged.GatedForwarding | src/rpp/rpp/operators/distinct_until_changed.hpp:21-44 | the strategy is the forwarding strategy with on_next gated: construction, is_disposed, on_error, on_completed and set_upstream act as the forwarding members do; on_next either leaves the frame alone (value suppressed) or acts as the forwarding on_next and stores the value as the last one |
| DistinctUntilChanged.DisposalIsObservers | src/rpp/rpp/operators/details/strategy.hpp:81 | the frame around distinct_until_changed reports disposed exactly when its observer is, before and after any stream of values: the strategy never disposes on its own |
| DistinctUntilChanged.FrameFilters | src/rpp/rpp/operators/distinct_until_changed.hpp:21-44 | inside operator_strategy_base, a stream of values reaches the observer filtered exactly as Distinct says, and the frame ends holding the last value let through |
| Merge.Increment | src/rpp/rpp/operators/merge.hpp:60 | fetch_add(1) on the size_t counter adds one, and wraps to 0 from 2^64 - 1 |
| Merge.Decrement | src/rpp/rpp/operators/merge.hpp:46 | fetch_sub(1) on the size_t counter subtracts one, and wraps from 0 to 2^64 - 1 |
| Merge.Subscribe | src/rpp/rpp/operators/merge.hpp:86-90 | subscribing to merge sets the counter to 1, for the outer source, with nothing sent downstream |
| Merge.OnInner | src/rpp/rpp/operators/merge.hpp:54-62 | each inner observable received adds one to the counter before it is subscribed, and sends nothing downstream |
| Merge.OnInnerValue | src/rpp/rpp/operators/merge.hpp:38 | an inner value is forwarded downstream unchanged and the counter is untouched |
| Merge.OnSourceCompleted | src/rpp/rpp/operators/merge.hpp:43-48 | every completion decrements the counter, and downstream completes exactly when the counter was 1 |
| Merge.InitialInv | src/rpp/rpp/operators/merge.hpp:90 | a fresh merge owes exactly one completion, the outer source's, and its counter says so |
| Merge.StepInv | src/rpp/rpp/operators/merge.hpp:43-67 | every event keeps the counter equal to the completions still owed, that is the live inner sources plus one until the outer completes, and keeps downstream uncompleted until nothing is owed |
| Merge.RunValues | src/rpp/rpp/operators/merge.hpp:62-63 | downstream receives, as values, exactly the values the inner sources emit, in the order they emit them |
| Merge.MergeTheorem | src/rpp/rpp/operators/merge.hpp:41-99 | along every interleaving: the counter is the completions owed; downstream completes exactly once, as its last notification, if and only if the outer and every started inner source have completed, so an outer completion with live inners does not complete it; downstream's values are the inner values in order |
| Merge.MergeWithConcatenates | src/rpp/rpp/operators/merge.hpp:102-106 | merge_with of synchronous finite observables, emitted by just on the immediate scheduler, delivers the first one's values, then the second's, and so on, then completes once, leaving the counter at 0; the values downstream receives are the concatenation of the sources' values |

## Left out

- The gRPC runtime (calls, streams, binding, the stubs, completion queues) is foreign. Its calls appear only as entries in the request log. Its callbacks are events whose arrival the model constrains (`Bridge.Enabled`): a read completes only when one is armed, and a write succeeds only while one is in flight.
- Threads, mutexes, atomics and memory orders are not modelled. Every reactor and the merge counter are driven by one sequential interleaving of events.
- The upstream subscription is reduced to a flag that records whether it was disposed. The model does not cover producer events after disposal, nor a runtime callback after `delete this` (for example OnDone after a failed read has already destroyed the reactor). The code has no guard for either, and every handler here requires a live reactor.
- Pushes during construction are not modelled. `add_reactor` subscribes to the producer inside the constructor, so a producer can push before the reactor is bound and started (client_reactor.hpp:33-47). The server constructors subscribe in the member initializer, before the constructor body sends the initial metadata and arms the first read (server_reactor.hpp:35-49, 114-126). A synchronous `responses` observable can therefore issue StartWrite and Finish before StartSendInitialMetadata. `Reactor.AddReactor`, `Reactor.Construct` and `Reactor.MakeServerReactor` produce the reactor with construction (and, on a client, Bind and Init) done, and the producer pushes only afterwards.
- Exceptions are values: `std::exception_ptr` is a type parameter in the operators, and an error kind plus message in the reactors. gRPC status codes other than OK and INTERNAL are one numbered constructor.
- The observer's own behaviour is left out. In particular, the model does not suppress notifications after a terminal one or after disposal. The observer records what it is sent, so the theorems state what the reactors and operators send.
- `merge` errors (`early_unsubscribe_on_error`), the serialized subscriber and the child subscriptions are not modelled. Their definitions are not part of this model.
- Merge.MergeTheorem: does not cover runs with 2^64 - 1 or more inner sources live at once. `Merge.Enabled` excludes them, so the counter's increment never wraps there. The wrap itself is modelled in `Merge.Increment` and `Merge.Decrement`.
- Merge.MergeWithConcatenates: covers only synchronous finite inner observables. With asynchronous ones the interleaving is the environment's, and `Merge.MergeTheorem` covers every interleaving.
- The type-level plumbing of `strategy.hpp` is not modelled. That is the `operator_strategy` concept, `operator_observable_strategy_base`, the identity, template and non-template subscribe strategies, and the move-only construction rules. They select types at compile time and carry no run-time behaviour beyond building the frame modelled by `OperatorStrategy.Construct`.
- The comparator of `distinct_until_changed` is a pure function value. A comparator with side effects is not modelled.
