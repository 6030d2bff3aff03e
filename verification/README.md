# A verified model of goradd/serve

This project models seven stateful parts of the `serve` web framework and its
browser script, and proves what they are there to guarantee.

* **The WebSocket hub** (`HubModel`, `HubDelivery`, `HubProgress`, `HubWriting`,
  `Hub`). A step
  system in which the hub loop, one writer per connection and the connections
  themselves take turns. Delivery of a message is one step per subscriber, and it
  waits while that subscriber's outbox of 256 is full. What a client receives is
  compared with a reading of the history of steps that never looks at the hub's
  state, and a connection that has not failed can always have it all written. `Hub` holds the two indexes and the client objects as the Go code keeps
  them, changed in place.
* **The cache** (`LruModel`, `LruHistory`, `LruCache`). A map with expiry times, a
  collection that is a step of its own and may run at any time, and a sort whose
  order of equal times is arbitrary. Runs are compared with the history of sets,
  gets and collections.
* **The element scanner** (`Scanner`). The stack machine over tokens, a printer of
  element trees that it inverts, and its behaviour on any token stream at all.
* **Buffered output, the error handler and the buffer pool** (`OutputModel`,
  `PoolModel`, `Buffers`, `Output`). A request as a trace of operations, panics as
  outcomes, buffers as arrays in the heap that requests share through the pool.
* **The ajax queue and the final commands** (`AjaxModel`, `AjaxRuns`,
  `AjaxCommands`, `AjaxQueue`). What a callback does is given as data, so callbacks may re-enter
  the queue in any way.
* **Named timers, throttle and `extend`** (`TimerModel`, `Timers`, `ExtendModel`,
  `Extend`). Timers run under a clock that never goes backwards; `extend` is
  defined on trees and then carried out on objects in the heap.
* **The cache buster and static files** (`Paths`, `CacheBuster`, `StaticFiles`).
  Strings are sequences of characters, and Go's path functions are written out.
  Registration, the URL that carries a checksum, the way back to the file and the
  choice of a stored variant are followed from end to end.

Each part has a module of functions, which says what every operation computes,
and a module of classes and methods in the shape of the source, whose contracts
tie them to those functions. The theorems are about the functions, over all
inputs and all runs.

## Where the code does not do what is said of it

The model follows the code. Each of these is a lemma.

* A late unregister from an old connection removes the newer connection of the
  same id (`HubDelivery.LateUnregisterRemovesNewest`,
  `HubDelivery.OldConnectionRemovesNew`).
* A send can block the hub for good (`HubProgress.HubCanBlock`): in whatever order
  it takes the subscribers, it completes if and only if none still to be served
  has both a stopped writer and a full outbox
  (`HubProgress.CompletesUnlessBlocked`).
* The status sent is the last one set, so a later zero undoes it
  (`OutputModel.ZeroUndoesStatus`, `OutputModel.LastNonzeroIsSentUnlessUndone`).
* `DisableOutputBuffering` says that what was buffered is not output; it is, after
  everything streamed (`OutputModel.DisablingStillSendsBuffer`), unless the handler
  panics, has emptied the buffer by the time it returns, or ends with no status or
  one that has no body (`OutputModel.DisablingWithholdsBufferIff`).
* `OutputLen` is said to give, once buffering is off, the bytes written to the
  client; bytes buffered before count as well, even after a reset
  (`OutputModel.DisabledLenCountsBuffered`).
* A file that has to be decompressed for a client is not handed to the processor of
  its extension (`StaticFiles.ProcessedIff`).
* Handlers of the queue's completion event that queue two requests put two in
  flight at once (`AjaxRuns.InFlightAfterComplete`, `AjaxRuns.AtMostOneInFlightIff`).
* Final commands are taken last in, first out, and one may run while a request is
  in flight (`AjaxRuns.FinalCommandMayRunBusy`, `AjaxRuns.HandlerMayQueueFirst`); none
  does exactly in the runs that `AjaxRuns.FinalsAlwaysRunIdleIff` describes.
* A throttled function that throttles itself, or whose timer is cancelled, can run
  again too soon (`TimerModel.ReentrantCallLosesSpacing`,
  `TimerModel.CancelledTimerLosesSpacing`); it cannot if every call is timely
  (`TimerModel.TimelyRunsAreSpaced`), and it can after any call that is not
  (`TimerModel.UntimelyCallBreaksSpacing`).
* `extend` with further arguments drops undefined members from the target's own
  plain sub-objects (`ExtendModel.ExtendIsFoldIff`).
* `Accept-Encoding: gzip;q=1.0` is not taken to accept gzip
  (`StaticFiles.QualityIsNotRecognised`).
* The URL of a file called `.gz`, `.br`, or one of these after one or two more
  dots, does not lead back to it (`CacheBuster.RoundTripIff`,
  `CacheBuster.OnlyASuffix`); a file in a directory whose name begins with `gr.`
  cannot be asked for directly (`CacheBuster.DirectPathIff`); and a request path
  without a slash makes the cache buster panic (`CacheBuster.StripPanicsIff`).

## Model

| member | source | states |
|---|---|---|
| HubDelivery.DeliveryIsExact | messenger/ws/hub.go:87-134 | in every run, whenever no delivery is in progress, the frames a Client object has written, its batch in hand and its outbox together are exactly the messages sent to channels its id was subscribed to while it was the registered object, each once and in send order |
| HubDelivery.DeliveryNeverRunsAhead | messenger/ws/hub.go:103-111 | in the middle of a delivery an object has received a prefix of what it is owed, short of at most the message being delivered |
| HubDelivery.IndexesMatchHistory | messenger/ws/hub.go:90-119 | the two maps hold exactly the registrations and subscriptions that the history of steps gives |
| HubDelivery.LateUnregisterRemovesNewest | messenger/ws/hub.go:99-101 | an unregister acts by id: whichever object it comes from, nothing is registered under that id afterwards and every other id keeps its object |
| HubDelivery.OldConnectionRemovesNew | messenger/ws/hub.go:99-101 | a run in which a second connection of an id registers and the first one's end then leaves nobody registered |
| HubDelivery.WriterKeepsStream | messenger/ws/client.go:86-118 | the steps of the write pump lose, add and reorder nothing |
| HubDelivery.DeliverSettles | messenger/ws/hub.go:107-111 | one iteration of the fan-out appends the message to the current object of that subscriber, which is owed it no longer, and touches no other object and no other debt |
| HubDelivery.HubTracksHistory | messenger/ws/hub.go:87-134 | registrations, subscriptions and streams agree with the history after every run, also inside a delivery |
| HubModel.ReachableStatesAreConsistent | messenger/ws/hub.go:136-178 | in every reachable state the two indexes agree in both directions, no channel entry is empty, listed ids are registered, distinct ids own distinct objects and no outbox exceeds 256 |
| HubModel.StepKeepsInv | messenger/ws/hub.go:87-134 | every step of the hub and the writers keeps that invariant, with the writers' own counts |
| HubModel.UnregisterRemovesExactly | messenger/ws/hub.go:136-147 | exactly the pairs of that id leave both indexes, a channel goes exactly when it was its only subscriber, other objects are untouched |
| HubModel.UnregisterKeepsInv | messenger/ws/hub.go:136-147 | unregistering keeps the indexes in agreement |
| HubModel.RegisterKeepsInv | messenger/ws/hub.go:90-97 | so does registering, also over an older connection of the same id |
| HubModel.SubscribeKeepsInv | messenger/ws/hub.go:149-164 | so does subscribing |
| HubModel.DeliverKeepsInv | messenger/ws/hub.go:107-111 | so does delivering, and the subscriber served is registered |
| HubModel.ServingStarts | messenger/ws/hub.go:103-107 | at the start of a fan-out nobody has been served |
| HubModel.ServingContinues | messenger/ws/hub.go:107-111 | each delivery serves one subscriber more, whatever the order in which the map is ranged over |
| HubProgress.FanoutIsBounded | messenger/ws/hub.go:103-111 | however deliveries and writers are scheduled, the steps until the hub accepts a new event are bounded by a measure of subscribers and backlog |
| HubProgress.InternalStepDecreases | messenger/ws/client.go:86-118 | every delivery and every step of a writer lowers that measure |
| HubProgress.FanoutIsNeverStuck | messenger/ws/hub.go:107-111 | whichever pending subscriber the loop is committed to, unless it is blocked, the delivery to that subscriber or a step of its own writer is possible |
| HubProgress.FanoutCompletes | messenger/ws/hub.go:103-111 | with no blocked subscriber and no failing connection every schedule finishes the send within the bound, and until then a step is possible towards every pending subscriber, so towards the one the loop waits for |
| HubProgress.BlockedForever | messenger/ws/client.go:104-123 | a subscriber with a stopped writer and a full outbox keeps the hub in the send whatever else happens |
| HubProgress.CompletesUnlessBlocked | messenger/ws/hub.go:107-111 | for every order in which the loop may take the pending subscribers, the send can complete in that order if and only if none of them is blocked in this way |
| HubProgress.HubCanBlock | messenger/ws/hub.go:107-111 | a run that registers, subscribes, fails a writer and sends 257 messages ends with the hub blocked for good |
| HubProgress.OutboxFills | messenger/ws/client.go:104-118 | messages pile up in the outbox of a connection whose writer has returned |
| HubWriting.EverythingOwedIsWritten | messenger/ws/client.go:86-118 | from every run in which a connection has not failed, receives and frames of its own writer alone lead to an empty outbox and batch; if no delivery is in progress, the frames written then hold exactly the messages its history calls for |
| HubWriting.WriterStopsIff | messenger/ws/client.go:139-145 | in every run the writer of a client object has stopped if and only if that connection has failed, so every new connection has a live one |
| HubWriting.WriterCanMove | messenger/ws/client.go:86-118 | a live writer with anything queued or in hand always has a step to take, and it leaves less to write |
| Hub.Client.constructor | messenger/ws/client.go:139-145 | a fresh client has no subscriptions and an empty outbox, and a writer waiting for the first message |
| Hub.Client.TakeFirst | messenger/ws/client.go:87-96 | the writer's first receive starts a batch |
| Hub.Client.CountQueued | messenger/ws/client.go:99 | the writer reads the queue length once |
| Hub.Client.TakeNext | messenger/ws/client.go:100-102 | each further receive appends to the batch and counts down |
| Hub.Client.WriteFrame | messenger/ws/client.go:104-118 | the batch goes out as one frame |
| Hub.Client.WriteQueued | messenger/ws/client.go:86-118 | an undisturbed turn of the write pump sends the whole outbox as one frame in order |
| Hub.WebSocketHub.constructor | messenger/ws/hub.go:71-85 | a new hub is empty |
| Hub.DroppingOwnChannelsSuffices | messenger/ws/hub.go:143-145 | visiting only the client's own channel list removes it from every channel |
| Hub.WebSocketHub.UnsubscribeAll | messenger/ws/hub.go:143-145 | ranging over the set it deletes from terminates and takes the client out of exactly its own channels |
| Hub.WebSocketHub.UnsubscribeChannel | messenger/ws/hub.go:166-178 | both maps after one unsubscription, with an emptied channel deleted |
| Hub.WebSocketHub.RemoveClient | messenger/ws/hub.go:143-146 | the client leaves its own channels and the map of clients |
| Hub.WebSocketHub.UnregisterClient | messenger/ws/hub.go:136-147 | the whole new state after unregistering by id; nothing for an unknown id |
| Hub.WebSocketHub.Register | messenger/ws/hub.go:90-97 | the old connection of the id is torn down first, then the new object is the registered one |
| Hub.WebSocketHub.AddClient | messenger/ws/hub.go:97 | the object becomes the one registered under its id |
| Hub.WebSocketHub.SubscribeChannel | messenger/ws/hub.go:149-164 | both indexes gain the pair; an unknown id changes nothing |
| Hub.WebSocketHub.StartSend | messenger/ws/hub.go:103-107 | a send owes the message to the channel's subscribers, or does nothing for an unknown channel |
| Hub.WebSocketHub.Deliver | messenger/ws/hub.go:107-111 | one subscriber is served exactly if its outbox has room, and otherwise nothing changes |
| Hub.WebSocketHub.ServeNext | messenger/ws/hub.go:107-111 | any pending subscriber is served, or its outbox is full |
| Hub.WebSocketHub.Fanout | messenger/ws/hub.go:103-111 | the loop ends with every subscriber served once, or waiting for one with a full outbox; nobody else's outbox changes |
| LruHistory.GetReturnsLastSet | cache/lru_cache.go:134-147 | in every run with collections at any time, Get returns nothing or the value last set for the key, and nothing for a key never set |
| LruHistory.ProtectedIsReturned | cache/lru_cache.go:91-132 | Get returns that value if at every collection since some set the key was unexpired and fewer than maxItemCount other keys had an equal or later access |
| LruHistory.CacheTracksHistory | cache/lru_cache.go:64-147 | every cached item holds the last value set and expires ttl after its last access |
| LruHistory.InsertionsAreConserved | cache/lru_cache.go:76-132 | for each key, sets that found it absent equal its evictions plus one if it is cached |
| LruHistory.EvictionsAreConserved | cache/lru_cache.go:103-129 | in total likewise, and the Removers told are exactly the evicted ones, once per eviction and in order |
| LruHistory.SizeIsBounded | cache/lru_cache.go:76-132 | the cache holds at most maxItemCount plus the sets since the last completed collection |
| LruHistory.CollectionsStartRegularly | cache/lru_cache.go:78-86 | with a fixed interval a collection is started on every gcInterval-th set, an interval below one acting as one |
| LruModel.CollectionIsExact | cache/lru_cache.go:91-132 | a collection removes all expired items and then the oldest until exactly min(maxItemCount, unexpired) remain; nothing removed expires after anything kept; what is kept is unchanged |
| LruModel.WhoSurvives | cache/lru_cache.go:97-129 | for every order of ties: fewer than maxItemCount others at least as young suffices to survive, fewer than maxItemCount others strictly younger is necessary |
| LruModel.FirstLiveDivides | cache/lru_cache.go:103-114 | stopping at the first unexpired key leaves exactly the expired ones before it |
| LruModel.EvictFirstKeeps | cache/lru_cache.go:103-129 | deleting the first keys of the order removes just those and tells just their Removers |
| LruModel.UnexpiredSize | cache/lru_cache.go:103-114 | the first pass stops after as many keys as there are expired items |
| LruCache.LruCache.constructor | cache/lru_cache.go:46-57 | an empty cache with ttl in nanoseconds and an interval of maxItemCount/8, at least 16 |
| LruCache.LruCache.SetGCInterval | cache/lru_cache.go:59-61 | only the interval changes |
| LruCache.LruCache.Set | cache/lru_cache.go:64-88 | panics before any change exactly for nil or a blank key, else stores, refreshes and counts |
| LruCache.LruCache.Get | cache/lru_cache.go:136-147 | the value, and a refreshed expiry; nothing changes on a miss |
| LruCache.LruCache.Has | cache/lru_cache.go:150-155 | whether the key is cached, changing nothing |
| LruCache.LruCache.Evict | cache/lru_cache.go:105-109 | one deletion, telling the value if it wants to know; a key already gone is left alone |
| LruCache.SortKeys | cache/lru_cache.go:93-99 | every key once, by expiry |
| LruCache.LruCache.EvictExpired | cache/lru_cache.go:101-114 | the first pass deletes exactly the expired items and leaves the loop variable at the position last looked at |
| LruCache.LruCache.EvictAt | cache/lru_cache.go:119-124 | deleting again a key that the first pass deleted does nothing |
| LruCache.LruCache.EvictOldest | cache/lru_cache.go:116-129 | the second pass deletes up to the limit, also when it starts on a key already deleted |
| LruCache.LruCache.Gc | cache/lru_cache.go:91-132 | the two passes over a sorted order amount to one collection |
| Scanner.ScanPrint | parse/parse.go:64-134 | scanning what a tree prints, in any context, reports exactly its marked elements with exact offsets, inner before outer, and leaves the stack as it was |
| Scanner.ScanPrintAll | parse/parse.go:54-136 | likewise for a forest |
| Scanner.SpansNest | parse/parse.go:64-131 | for any token stream the reported spans lie inside the input, have increasing ends and distinct starts, and are disjoint or strictly nested with the later one outside |
| Scanner.ReportedIff | parse/parse.go:72-131 | for any token stream, an element is reported if and only if it is a marked tag that ends itself, or a marked start tag whose element is first popped by its own end tag, with that tag's name and id and exact offsets |
| Scanner.ScanFollows | parse/parse.go:102-124 | after every prefix of a token stream the stack holds exactly the elements still open, each at the depth at which it was opened |
| Scanner.TokenKeepsInv | parse/parse.go:64-133 | one token keeps reports nested and clear of every open element |
| Scanner.CloseTop | parse/parse.go:110-131 | an end tag right after an element's contents closes that element |
| Scanner.IdByPosition | parse/parse.go:77-84 | the id a tag is read to have is the value at the last position whose key is "id", and empty if there is none |
| Scanner.VoidElementsAre | parse/parse.go:18-33 | which elements end themselves without a slash |
| Scanner.InspectAttributes | parse/parse.go:75-84 | by position: whether some attribute has the marking key, and the value of the last attribute whose key is "id", or empty if none has |
| Scanner.FindOpen | parse/parse.go:112-115 | the innermost open element of that name, or -1 |
| Scanner.ReadTag | parse/parse.go:73-108 | a tag is reported or put on the stack as the scan says |
| Scanner.ReadEndTag | parse/parse.go:110-131 | an end tag pops down to its element and reports that, as the scan says |
| Scanner.FindGoraddElements | parse/parse.go:45-137 | the loop computes the scan of all tokens, or passes on the tokenizer's error |
| OutputModel.NormalReturn | http/bufferedOutput.go:134-157 | a handler that returns commits one status, the last set or 200, or 500 for headers that are not ASCII, and sends what was written since the last reset |
| OutputModel.HttpErrorPanic | http/error.go:217-227 | an Error panic sends its code, its message and none of the buffered bytes; a header is sent if and only if it was set before or the error has it, with the error's value if it has one and otherwise the value set before |
| OutputModel.StatusCodePanic | http/error.go:228-230 | an int panic sends that status and no body |
| OutputModel.OtherPanic | http/error.go:232-250 | any other panic sends 500 and the replacement output of a ServerError, and none of the buffered bytes |
| OutputModel.ExactlyOneCommit | http/bufferedOutput.go:52-58 | whatever the handler does, with buffering on or off, a sent response commits exactly one status |
| OutputModel.PlainPrefix | http/bufferedOutput.go:36-58 | until it ends, a buffered handler leaves the wire alone and the buffer holds what was written since the last reset |
| OutputModel.ZeroUndoesStatus | http/bufferedOutput.go:52-58 | setting 404 and then 0 sends 200 |
| OutputModel.LastNonzeroIsSentUnlessUndone | http/bufferedOutput.go:145-151 | the last nonzero status is the one sent if and only if no later call set zero, or the fallback is the same 500 |
| OutputModel.InvalidHeaderIff | http/bufferedOutput.go:145-151 | without a status of its own a response is 500 if and only if some character of some header key or value is not ASCII, and else 200 |
| OutputModel.StatusBody | http/bufferedOutput.go:145-155 | exactly 101, 204 and 304 go out without the buffered output, and the other codes from 100 to 199 before a 200 |
| OutputModel.HandlerObserves | http/bufferedOutput.go:83-116 | while buffering is on, a handler is told how much it wrote, how much is waiting and, on a reset, what that was |
| OutputModel.DisabledLenCountsBuffered | http/bufferedOutput.go:83-89 | once buffering is off, the length told is that of what was written to the client if and only if nothing had been written before |
| OutputModel.DisablingStillSendsBuffer | http/bufferedOutput.go:91-99 | when a handler switches buffering off and then only writes, what was buffered before goes out after what was streamed |
| OutputModel.DisablingWithholdsBufferIff | http/bufferedOutput.go:134-157 | whatever a handler does after switching buffering off, the response is the one without the buffered output if and only if the handler panics, has an empty buffer when it returns, or ends with no status or one without a body |
| PoolModel.BuffersAreExclusive | pool/buffer.go:52-70 | in every interleaving no buffer is both pooled and held, none is held twice, and every pooled one is empty |
| PoolModel.RequestsAreIsolated | http/bufferedOutput.go:134-157 | in every interleaving each request is exactly where it would be had it run alone for as many turns, with any handler that reacts to what it observes |
| PoolModel.OthersUnaffected | http/bufferedOutput.go:136-143 | a step of one request, or of the collector, is invisible to all others |
| PoolModel.FinishedAsIfAlone | http/bufferedOutput.go:134-157 | a finished request has sent what it sends when alone |
| PoolModel.BufferIsRecycledIff | pool/buffer.go:58-70 | a finished request's buffer is pooled again if and only if its capacity is below the limit, and a beginning request takes one out |
| PoolModel.ScriptServes | http/error.go:209-255 | turn by turn, a listed handler comes to the response that the theorems of OutputModel describe |
| Buffers.Buffer.Write | http/bufferedOutput.go:36-45 | appends, in place if there is room and otherwise in a new array |
| Buffers.Buffer.Reset | pool/buffer.go:60 | empties the buffer and keeps its array |
| Buffers.Pool.GetBuffer | pool/buffer.go:52-54 | an empty buffer that nobody else has |
| Buffers.Pool.PutBuffer | pool/buffer.go:58-70 | a buffer goes back emptied, unless it has grown to the limit; nil is ignored |
| Buffers.Pool.WriteIsPrivate | pool/buffer.go:83-91 | writing to one buffer, even if its array is replaced, changes no other buffer's contents |
| Output.CheckHeader | http/bufferedOutput.go:147 | true if and only if no character of any header key or value, by position, is outside ASCII |
| Output.ResponseWriter.SetHeaders | http/error.go:218-221 | key by key: the error's headers have the error's values, and all others set before keep theirs |
| Output.BufferedResponseWriter.Write | http/bufferedOutput.go:36-45 | to the buffer, or straight through when disabled, counting and reporting what was taken |
| Output.BufferedResponseWriter.WriteHeader | http/bufferedOutput.go:52-58 | the code is kept, or sent at once when disabled |
| Output.BufferedResponseWriter.Disable | http/bufferedOutput.go:73-75 | buffering is off and the buffer kept |
| Output.BufferedResponseWriter.OutputLen | http/bufferedOutput.go:83-89 | the bytes buffered, or all bytes written when disabled |
| Output.BufferedResponseWriter.ResetOutputBuffer | http/bufferedOutput.go:102-116 | hands out a view of the buffer's own array that shows the old output, and empties the buffer |
| Output.BufferedResponseWriter.Run | http/bufferedOutput.go:143 | running a handler's operations ends as the trace says |
| Output.SendBuffered | http/bufferedOutput.go:145-155 | status and buffer after a handler that returned |
| Output.WithBufferedOutput | http/bufferedOutput.go:134-157 | what reaches the wire and which panic goes on, with the buffer returned in either case |
| Output.WithErrorHandler | http/error.go:209-255 | the two middlewares together produce the response of the trace |
| AjaxRuns.NothingIsStranded | assets/js/goradd.js:2611-2675 | with any mix of requests, between events a non-empty queue or list of final commands has a request in flight |
| AjaxRuns.StartedInOrder | assets/js/goradd.js:2611-2636 | queued requests start exactly once each and in order, and all have started once nothing is in flight |
| AjaxRuns.InFlightAfterComplete | assets/js/goradd.js:2668-2673 | how many requests are in flight after the only one ends: one if any is queued, else what the completion event queues, up to two |
| AjaxRuns.OneAtATimeIff | assets/js/goradd.js:2668-2673 | one request at a time continues if and only if one is queued or the completion event queues at most one |
| AjaxRuns.AtMostOneInFlightIff | assets/js/goradd.js:2611-2675 | with only queued requests, never is more than one in flight in a run if and only if at every end of a request another is queued or the completion event queues at most one |
| AjaxRuns.FinalsRunInReverse | assets/js/goradd.js:322-327 | deferred commands are carried out once each, last deferred first |
| AjaxRuns.FinalsRunIdleIff | assets/js/goradd.js:322-327 | started when all is idle, the loop over the deferred commands finds everything idle throughout if and only if none but the one carried out last queues a request |
| AjaxRuns.CompletionRunsIdleIff | assets/js/goradd.js:2668-2673 | at the end of any request, all deferred commands carried out find everything idle if and only if, should the queue be complete with commands deferred, no other handler queues anything first and none of the commands but the last does |
| AjaxRuns.FinalCommandMayRunBusy | assets/js/goradd.js:277-284 | a response with two final commands of which the later queues a request runs the earlier with that request in flight |
| AjaxRuns.HandlerMayQueueFirst | assets/js/goradd.js:2670-2672 | a final command runs with a request in flight if another handler of the completion event has queued one |
| AjaxRuns.FinalsAlwaysRunIdleIff | assets/js/goradd.js:277-327 | in a run, no final command is ever carried out while a request is in flight or queued if and only if every event of the run meets that condition |
| AjaxRuns.OneRequestInFlight | assets/js/goradd.js:2611-2621 | the state of the example above is reached by queueing one request |
| AjaxRuns.OnCompleteKeepsInv | assets/js/goradd.js:2650-2675 | the end of a request, with all its callbacks, keeps the queue's invariant |
| AjaxCommands.CommandsAreConserved | assets/js/goradd.js:277-327 | in every run, counted with multiplicity, the commands carried out and those still deferred together are exactly those that callbacks handed in, and once nothing is in flight all have been carried out |
| AjaxCommands.CallbackRunsOrdinary | assets/js/goradd.js:277-284 | with a request in flight, a callback carries out exactly its ordinary commands, in order, and defers exactly its final ones, in order |
| AjaxCommands.CompletionAccounts | assets/js/goradd.js:322-327 | the completion event loses no deferred command and runs none twice |
| AjaxCommands.EnqueueStarts | assets/js/goradd.js:2611-2621 | an asynchronous request is started whatever is in flight and leaves the queue alone; any other is queued, and started if nothing was in flight |
| AjaxCommands.EndStartsNext | assets/js/goradd.js:2668-2673 | the end of any request starts the first one queued, also while others are in flight |
| AjaxCommands.CommandQueues | assets/js/goradd.js:277-284 | carrying out a command makes the calls of enqueue it stands for, in order, and nothing else |
| AjaxQueue.AjaxQueue.Enqueue | assets/js/goradd.js:2611-2621 | queued, and started if nothing was in flight; started at once if asynchronous |
| AjaxQueue.AjaxQueue.Dequeue | assets/js/goradd.js:2631-2636 | the first queued request is started, if there is one |
| AjaxQueue.AjaxQueue.Do1 | assets/js/goradd.js:2637-2700 | a request in flight under a new id |
| AjaxQueue.AjaxQueue.IsRunning | assets/js/goradd.js:2628-2630 | whether any request is in flight |
| AjaxQueue.AjaxQueue.ProcessFinalCommands | assets/js/goradd.js:322-327 | the loop pops and carries out the deferred commands, whatever they queue |
| AjaxQueue.AjaxQueue.Perform | assets/js/goradd.js:277-284 | a callback's calls and commands, final ones deferred while anything is in flight |
| AjaxQueue.AjaxQueue.OnRequestDone | assets/js/goradd.js:2650-2675 | callback, removal, completion event if idle, next request |
| TimerModel.ThrottleSpacesExecutions | assets/js/goradd.js:1330-1345 | executions of a timer that is only throttled, with one interval and not from its own callback, start at least the interval apart, whatever other timers do |
| TimerModel.ThrottleLeavesPending | assets/js/goradd.js:1330-1345 | every call leaves an execution pending and due within the interval |
| TimerModel.ThrottledDueIs | assets/js/goradd.js:1330-1345 | after any run in which a timer is only throttled, a call that finds it neither pending nor running makes it due exactly an interval after its last execution started, or at once if that is past |
| TimerModel.ThrottleDueIs | assets/js/goradd.js:1330-1345 | after any run at all, a call changes nothing if the timer is pending, and otherwise makes it due an interval after the execution its record still knows of, or at once if that is past |
| TimerModel.SetTimerArms | assets/js/goradd.js:1250-1271 | after any run, setting a timer makes the name pending, due after the delay, with no execution on record |
| TimerModel.ClearTimerDisarms | assets/js/goradd.js:1285-1296 | after any run, clearing a timer leaves the name not pending and its recorded executions as they were |
| TimerModel.CallbackIsRecorded | assets/js/goradd.js:1264-1269 | a callback's start and end are recorded, and the timer is not pending once it starts |
| TimerModel.NotRecorded | assets/js/goradd.js:1257-1269 | a callback that throws leaves no end on record, and a periodic timer records nothing |
| TimerModel.OtherTimersUntouched | assets/js/goradd.js:1250-1345 | no step touches a timer of another name |
| TimerModel.NextDueIff | assets/js/goradd.js:1335-1344 | after any run at all, a call that finds nothing pending schedules a full interval after the start of the last execution if and only if the record shows that execution to have ended, or the interval is over |
| TimerModel.TimelyRunsAreSpaced | assets/js/goradd.js:1330-1345 | in a run where the name is throttled at one interval and otherwise only cancelled, if that holds of every call that schedules, executions start at least the interval apart, though callbacks throttle themselves, throw or are cancelled |
| TimerModel.UntimelyCallBreaksSpacing | assets/js/goradd.js:1264-1269 | after a call of which it does not hold, with no further call, the next execution can start too soon |
| TimerModel.CancelledTimerLosesSpacing | assets/js/goradd.js:1285-1296 | a run in which a cancelled timer makes the next call forget the last execution |
| TimerModel.ReentrantCallLosesSpacing | assets/js/goradd.js:1264-1269 | a callback that throttles itself runs again at once |
| Timers.NamedTimers.SetTimer | assets/js/goradd.js:1250-1271 | an older timer of the name is cancelled and a new record made |
| Timers.NamedTimers.HasTimer | assets/js/goradd.js:1277-1280 | whether a timer of the name is pending |
| Timers.NamedTimers.ClearTimer | assets/js/goradd.js:1285-1296 | the timer is cancelled and its record kept |
| Timers.NamedTimers.Throttle | assets/js/goradd.js:1330-1345 | nothing while pending, else the delay that is left |
| Timers.NamedTimers.Begin | assets/js/goradd.js:1264-1267 | the start time is recorded and the timer no longer pending |
| Timers.NamedTimers.End | assets/js/goradd.js:1267-1269 | the end time is recorded, on whatever record the name has by then |
| ExtendModel.ExtendIsTidyFold | assets/js/goradd.js:591-624 | on finite trees extend is the left fold of a right-biased deep merge that skips undefined, with undefined members dropped from plain sub-objects |
| ExtendModel.LeafOfMerge | assets/js/goradd.js:604-622 | along any path of keys, the merge has a value that is not a plain object at its end if and only if the argument has it there, or the target has it there and the argument does not override that path |
| ExtendModel.ExtendIsFoldIff | assets/js/goradd.js:591-608 | merging the target into itself first makes no difference, for any arguments, if and only if no plain sub-object of the target has an undefined member |
| ExtendModel.SelfMergeTidies | assets/js/goradd.js:592-606 | merging the target into itself only drops undefined members of plain sub-objects |
| ExtendModel.ExtendGoraddMerges | assets/js/goradd.js:596-599 | with one argument it is merged into the goradd object, whose other keys stay exactly as they were |
| ExtendModel.TargetAgainChangesNothing | assets/js/goradd.js:604-608 | the target among the further arguments adds nothing to the result |
| ExtendModel.ExtendEmpty | assets/js/goradd.js:611-616 | extending an empty object copies the first plain object and merges the second into the copy |
| ExtendModel.MergeStep | assets/js/goradd.js:606-621 | the loop over keys builds the merge one key at a time, each from values not yet overwritten |
| Extend.MergeInto | assets/js/goradd.js:605-622 | the loop over one argument, also when that is the target, changes the target alone and writes only new plain objects |
| Extend.MergeKey | assets/js/goradd.js:607-620 | one key: skipped, replaced by a new object, or set by reference |
| Extend.Renew | assets/js/goradd.js:611-616 | the new object shows the old plain value with the new one merged in, and shares no object with either |
| Extend.Extend | assets/js/goradd.js:591-624 | the target ends as the tree extend defines, also when it is among the arguments, and every plain object in it, at any depth, is new |
| Extend.ExtendGoradd | assets/js/goradd.js:596-624 | the one-argument form, likewise for every key the argument defines |
| CacheBuster.RoundTripIff | http/cacheBuster.go:75-94 | for every registered URL, stripping what CacheBustedPath gives returns the URL if and only if its file name is not empty, "." or ".." |
| CacheBuster.OnlyASuffix | http/cacheBuster.go:50-55 | a file named ".gz" is registered under a URL that does not come back |
| CacheBuster.StripShow | http/cacheBuster.go:75-82 | stripping drops the last directory if it looks like a cache buster, and nothing else |
| CacheBuster.StripLeavesAlone | http/cacheBuster.go:75-82 | for any path at all, stripping changes nothing unless the element before its last slash begins like a cache buster |
| CacheBuster.StripDirectory | http/cacheBuster.go:75-82 | a directory asked for with its final slash is left alone, unless its name begins like a cache buster |
| CacheBuster.BustShow | http/cacheBuster.go:87-94 | the checksum becomes the directory before the file |
| CacheBuster.UnregisteredIsKept | http/cacheBuster.go:87-94 | a URL that is not registered gets no cache buster |
| CacheBuster.UrlTracksChecksum | http/cacheBuster.go:47-49 | the URL of a file changes if and only if its checksum does |
| CacheBuster.HashTracksChecksum | http/cacheBuster.go:48-49 | checksums as signed base-36 text are distinct when they differ and never contain a slash |
| CacheBuster.FormatIntReads | http/cacheBuster.go:49 | the text of a checksum, read back in base 36 with its sign, is the checksum |
| CacheBuster.DirectPathIff | http/cacheBuster.go:75-82 | a path without a cache buster is left alone if and only if its directory does not begin with "gr." |
| CacheBuster.StripPanicsIff | http/cacheBuster.go:76-77 | stripping panics if and only if the path has no slash |
| CacheBuster.FirstClaimWins | http/cacheBuster.go:35-60 | a URL registered before keeps its hash, and otherwise the first file walked that claims it gives it |
| CacheBuster.KeyOfFile | http/cacheBuster.go:50-55 | a file is known by its path under the prefix without its compression suffix |
| CacheBuster.TrimNameIs | http/cacheBuster.go:50-55 | one compression suffix is taken off, gzip's or brotli's, and any other name is kept |
| CacheBuster.VariantsShareUrl | http/cacheBuster.go:50-55 | a plain file and its compressed variants have one URL |
| CacheBuster.FilesBeforeIs | http/cacheBuster.go:35-64 | the files registered are the regular ones walked before the first failure, in order |
| CacheBuster.RegisteringKeepsClean | http/cacheBuster.go:28-64 | every registration keeps URLs rooted and clean and hashes free of slashes, which the round trip needs |
| CacheBuster.Registry.RegisterAssetDirectory | http/cacheBuster.go:28-64 | the walk registers the files up to a failure, first claim first, and panics if and only if there is a failure |
| CacheBuster.Registry.Examine | http/cacheBuster.go:42-55 | one file's URL, with gzip's suffix looked for before brotli's, and its hash |
| StaticFiles.RegisteredAssetIsDelivered | http/fileSystemServer.go:67-158 | every registered asset with a usable name is delivered at its busted URL, to every client, with the content its stored variants agree on, in an encoding the client accepts |
| StaticFiles.AssetPathComesBack | http/cacheBuster.go:28-31 | prefix and cache buster removed, the asset's own path is left, for a prefix with or without a final slash |
| StaticFiles.ChoiceKeepsContent | http/fileSystemServer.go:111-157 | for any subset of consistent variants and any Accept-Encoding the response decodes to the content, and it is not found if and only if there is none |
| StaticFiles.CompressedIff | http/fileSystemServer.go:111-129 | a compressed variant is sent as it is if and only if it exists and is accepted, brotli before gzip |
| StaticFiles.ProcessedIff | http/fileSystemServer.go:253-256 | a file with a processor for its extension is handed to it, as stored, if and only if some variant is sent as it is; one that has to be decompressed is not |
| StaticFiles.AnsweredIff | http/fileSystemServer.go:67-94 | a request is answered if and only if its path is valid, not hidden and stored, and panics if and only if the cache buster meets a path without a slash |
| StaticFiles.ServeStaticFile | http/fileSystemServer.go:67-158 | the method computes that response |
| StaticFiles.ReadPath | http/fileSystemServer.go:74-84 | leading slash, empty path, trailing slash and directory all handled |
| StaticFiles.ReadAcceptEncoding | http/fileSystemServer.go:96-109 | each flag is set if and only if some header value lists the encoding by its bare name |
| StaticFiles.ListMentions | http/fileSystemServer.go:101-107 | a header value is read piece by piece at its commas |
| StaticFiles.TrimSpaceIs | http/fileSystemServer.go:103-104 | white space on either side of a word is taken off, all of it and nothing else |
| StaticFiles.NamedIsAccepted | http/fileSystemServer.go:99-109 | an encoding named alone, first, last or in the middle of a list, with any white space around it, is accepted |
| StaticFiles.AcceptsIff | http/fileSystemServer.go:99-109 | an encoding is accepted if and only if some piece of some header value is its name after trimming |
| StaticFiles.QualityIsNotRecognised | http/fileSystemServer.go:102-106 | an encoding listed with a quality value, as in "gzip;q=1", is not taken as accepted |
| StaticFiles.DirectoryMeansIndex | http/fileSystemServer.go:78-84 | the root and every directory, asked for with or without a final slash, stand for their index.html |
| StaticFiles.IsHidden | http/fileSystemServer.go:90-94 | whether the path is some text followed by one of the hidden endings |
| StaticFiles.HiddenIff | http/fileSystemServer.go:90-94 | a path is hidden if and only if it ends in one of the hidden endings |
| StaticFiles.ChooseVariant | http/fileSystemServer.go:111-157 | the five attempts in order |
| Paths.SplitByElems | http/cacheBuster.go:76-77 | what `path.Split` returns, in terms of the elements between slashes |
| Paths.CleanFixes | http/cacheBuster.go:50 | `path.Clean` leaves a clean path alone |
| Paths.CleanDirectory | http/cacheBuster.go:91 | `path.Clean` of a directory, a doubled slash and a rest |

## Left out

- Sockets, pings, deadlines, HTTP upgrade and JSON: only the steps they cause are modelled. The hub handles one event at a time, and a client object is registered once, with an identity of its own.
- `http.ResponseWriter` is modelled by what it promises: the first status counts, 1xx codes announce only, codes that are not three digits panic, 204 and 304 have no body. HEAD requests, header-key canonicalisation, trailers and write errors are not part of this model.
- The middlewares between the error handler and the output buffer (the pattern muxer and the header validator) pass requests on and are left out. The error handler stands outside the output buffer, so its own attempt to reset the buffer finds none.
- `panic(nil)` and a panic while logging an error.
- Integer widths in the cache: times, ttl and counters are unbounded integers, so overflow near the ends of 64 bits is not modelled. Cached values are a tag and whether they are Removers.
- The lock of the cache: every method is one step. `gcHappened` is for the source's own tests.
- The HTML tokenizer: tokens are given, and their lengths tile the input. For the nesting theorem they are positive.
- CRC-64, brotli and gzip: a checksum is any function to 64 bits, a codec is any function that may fail.
- `ProxyPath` is empty, because registration would join it twice. The muxer that routes a prefix to its handler is not part of this model.
- Content types, modification times, cache headers, range requests and errors of an open file; a file processor ends the model of a request (`Processed`), and so does opening a directory (`OpenedDirectory`).
- Functions that build an ajax request do not queue others, and callbacks do not throw past the script's own handler. Timeouts and network errors end a request like any answer.
- `extend` on cyclic objects, and on accessors or inherited properties. On values, objects of other kinds are opaque references.
- Extend.Extend: leaves out an argument that holds the target inside it; what is then copied depends on the order in which keys are visited.
- Extend.MergeInto: takes a bound on the depth of the trees as a ghost argument; `ExtendModel.EveryTreeIsShallow` shows that every tree has one.
- StaticFiles.RegisteredAssetIsDelivered: assumes no file processor for the extension, no directory under the names of the variants and variants that agree.
- Hub.WebSocketHub.Fanout: is one call of the loop on its own; that writers run between its iterations is modelled by the steps of HubModel.
- `session`, `config`, `log`, `watcher`, JSON and HSTS helpers and the rest of the browser script are wiring or single case splits that would add only easy members.
