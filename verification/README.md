# Django-Bolt in Dafny

Django-Bolt answers HTTP requests on a Rust path and registers handlers in Python. This
project models the parts of it whose correctness is not visible in one function body, and
proves what they promise. The properties range over every input, every run and every
interleaving; none is bounded.

`dafny verify dfyconfig.toml` checks everything.

## What is modelled

**The ASGI mount bridge** (`AsgiBridge.dfy`). A request to a mounted application runs
concurrently with the application's `send` and `receive` calls, its done-callback, a timeout
and a client that reads the body. Every locked section, channel operation and wake-up is one
atomic action, and a run is any sequence of enabled actions. Sends that the application does
not await are tasks of their own and may complete in any order. `AcceptedBodies`,
`AcceptedStarts` and `ClientReads` are computed from the action sequence alone, so the results
compare the state with what really happened. The class `MountedRequest` performs the actions in place.

**The dependency walk** (`DependencyWalk.dfy`). The recursive search with a shared visited set,
early exit and "needs everything" on failure, over any finite graph. The answer it is compared
with is defined by paths, without any search.

**Streams** (`StreamChannel.dfy`, `AsyncForwarder.dfy`, `SyncProducer.dfy`, `ThreadLimit.dfy`,
`StreamCompression.dfy`). The coroutine with its try-send and awaiting paths, the producer
thread with batches, the check-then-add thread counter, and the poll-driven encoder adapter
over an abstract codec that obeys a decode law.

**Server-sent events** (`ServerSentEvents.dfy`). The printer, proved against the stream
interpreter of the WHATWG HTML Living Standard, sections 9.2.5 and 9.2.6, with keep-alive
pings between chunks. Python's `splitlines` and its ten line boundaries are modelled.

**Forms** (`FormParsing.dfy`). URL-encoded and multipart parsing with chunked reads, spooling
and incremental limits.

**Pagination** (`CursorPagination.dfy`, `PagePagination.dfy`). A cursor walk over a table that
changes between requests, one over a table whose ordering key repeats, and page-number and limit/offset walks over a fixed list.

**Registration and routing** (`Registration.dfy`, `RoutePaths.dfy`, `BoltApi.dfy`, `AsgiMounts.dfy`,
`PathTemplates.dfy`, `UrlNames.dfy`, `MiddlewareCaches.dfy`). The id allocator and its tables,
mounting of sub-applications, longest-prefix lookup, the two readings of a path template, the
choice of a route for a name, and the double-checked locks around the middleware caches.

**Hand-written JSON** (`JsonEscaping.dfy`). The escaping chain and loop against a parser for
strings and objects of RFC 8259, sections 4 and 7.

`Common.dfy` holds the shared vocabulary.

## Where the code does not do what its words say

The code is modelled as it is. For each of these a lemma says exactly when the code does what it
should, and where the failing input is not plain another lemma shows one.

- `format_sse_event` says that its result always ends with two line feeds. It does not when no
  line is printed (`EndsWithBlankLineIffSomethingPrinted`).
- An event name with a line break is not delivered (`EventNameSurvivesIffOneLine`), nor is an id
  with one, which the source does not refuse (`IdSurvivesIffOneLine`).
- Data that is split into lines is delivered as it is exactly when it is not empty, has no line
  boundary but line feeds and does not end with one (`DataSurvivesIff`); an event with empty data
  is dropped (`EmptyDataIsDropped`). On the fast path the condition is to have no line break, and
  empty data is delivered (`FastPathDataSurvivesIff`).
- The duplicate check on mount prefixes compares neighbours after a sort by length only, and
  lets `/a, /b, /a` pass (`ValidateAndSort`, `HiddenDuplicateIsAccepted`). Registration
  prevents such lists (`RegisteredMountsAreAccepted`).
- The Django rewrite leaves the path alone when the subpath happens to start like the mount
  prefix (`DjangoRewriteRestoresIff`, `DjangoRewriteCanFail`).
- The thread limit can be overshot, by one less than the number of concurrent callers
  (`CounterIsExactAndBounded`, `BoundIsReached`, `LimitHoldsIffSingleCaller`).
- The producer loop ends, whatever the client does, exactly when the iterator answers with
  StopIteration at some point (`LoopEndsIffIteratorStops`). One that keeps raising another error
  makes it spin without producing anything (`LawlessIteratorSpins`); a generator stops after any
  error (`ThreadActionsAreBounded`).
- A waiting `receive` can still learn of the disconnect exactly when the done-callback has not
  notified yet, or the handler still waits for the start and the timeout may fire
  (`LateReceiveIsWokenIff`). One that starts to wait later is never woken (`LateReceiveWaitsForever`).
- Response bodies whose sends are not awaited may overtake each other. A response keeps its order
  in every continuation exactly when the pending chunks are all alike (`OrderIsSafeIff`).
- A cursor walk over a table whose ordering key repeats returns every row exactly when no page
  boundary falls inside a group of equal keys (`EveryRowIsReturnedIff`, `TieIsLost`).
- A handler that is registered under two routes runs both with the metadata of the one whose
  executor was built first. Requests run with their own exactly when each handler has one metadata on all its
  routes (`OwnMetadataIff`, `TwoRoutesShareAnExecutor`).
- A sub-application mounted at a path of slashes only gets routes that start with two slashes or
  are empty (`CopiedRouteStaysAddressableIff`).
- Error bodies are not JSON when a text holds a control character that is not escaped
  (`InternalErrorBodyParsesBackIff`, `ValidationBodyParsesBackIff`).
- Two explicit route names with different routes go unreported when a derived name came first
  and was merely repeated (`DifferentNamesGoUnreportedIff`).
- Django reads a reverse route as the router serves the template exactly when every parameter is
  closed, named without `>` and has no empty converter, and no literal `<` finds a `>` with
  something in between (`TemplatesAgreeIff`). Templates `<b>` and `{b}` share one reverse route
  (`LiteralBracketsAreMisread`).
- On an empty list every page number except 1 is answered with a previous page
  (`EmptyListStillHasPrevious`).
- A mount whose prefix is refused raises with its routes and the mounts before it already filed
  (`InterruptedMountKeepsTheFront`).
- Stripping a path made of two or more slashes leaves the empty string (`NormalizedPathIsEmptyIff`).

## Model

| member | source | states |
|---|---|---|
| AsgiBridge.BodyIsConserved | src/asgi_http.rs:111-153 | In every interleaving, awaited or not, delivered, queued and in-flight chunks are the accepted ones while the reader is open, all of them are delivered at end of stream, and at most 32 are queued |
| AsgiBridge.BodyIsDeliveredInOrder | src/asgi_http.rs:111-153 | In every interleaving in which sends are awaited and while the reader is open, delivered, queued and in-flight bytes together are the accepted body bytes in order; the client always holds a prefix, and the whole at end of stream |
| AsgiBridge.OrderIsSafeIff | src/asgi_http.rs:140-152 | While a response is streamed in order, every continuation delivers what was accepted in order if and only if the pending chunks are all alike |
| AsgiBridge.AwaitedRunKeepsOrder | src/asgi_http.rs:125-152 | A run that awaits its sends keeps every chunk in its place |
| AsgiBridge.NothingAfterTheFinalBody | src/asgi_http.rs:125-138 | After an accepted message with more_body=false no non-empty body is ever accepted |
| AsgiBridge.EverySendUntilClosedIsAccepted | src/asgi_http.rs:94-138 | In every run the accepted bodies are all non-empty bodies sent, in order, up to and including the message that closes the slot, and the accepted start is the first one sent before the callback; both are read off the actions alone |
| AsgiBridge.SendReturnsIff | src/asgi_http.rs:94-138 | After every run a start is accepted if and only if neither a start nor the callback came before, a body if and only if neither a last body nor the callback did, or it is empty and last; other messages never are |
| AsgiBridge.AllSendsCanReturnIff | src/asgi_http.rs:140-152 | All pending sends can return without the client reading if and only if the client is gone or the 32 places of the channel hold them |
| AsgiBridge.OneResponseStart | src/asgi_http.rs:94-110 | At most one response start is accepted in a run, at most one reaches the handler, and the reply carries exactly that one |
| AsgiBridge.ReplyIsFinal | src/asgi_http.rs:472-504 | The first of streaming, empty HEAD reply, 500 and 504 stays the reply in every continuation |
| AsgiBridge.TimeoutRepliesIff | src/asgi_http.rs:472-504 | The reply is 504 if and only if the timeout fired, and is open if and only if neither the timeout nor the start was acted on; until then the timeout can fire, and the handler can act as soon as a start was sent or the callback dropped the slot |
| AsgiBridge.ReaderIsGoneIff | src/asgi_http.rs:548-559 | The body receiver has ended if and only if the client read the end, and is dropped if and only if it disconnected or the reply does not stream; then nothing more is read |
| AsgiBridge.DoneUnblocksTheHandler | src/asgi_http.rs:202-211 | Once the done-callback has dropped the start slot a waiting handler can reply: with the accepted start if there was one, otherwise with 500 |
| AsgiBridge.InternalErrorQuotesTheException | src/asgi_http.rs:476-489 | The detail of a 500 is the outcome the done-callback recorded in the same run, never a stale or missing one |
| AsgiBridge.DrainNeverGrows | src/asgi_http.rs:202-208 | After the body slot is closed no action raises the number of chunks left, and each read or completed send lowers the measure |
| AsgiBridge.DrainIsBounded | src/asgi_http.rs:554-559 | Whatever else interleaves, only as many draining actions fit before the end as the measure says |
| AsgiBridge.DrainReachesTheEnd | src/asgi_http.rs:554-559 | A draining stream can always be run to its end within the measure plus one action; then every accepted chunk was read, in order if they were so far |
| AsgiBridge.RequestBodyLeavesOnce | src/asgi_http.rs:46-58 | The request body is handed out at most once in a run, unaltered |
| AsgiBridge.FirstReceiveGetsTheBody | src/asgi_http.rs:46-65 | The first call of receive returns the request body, no other call returns anything at once, and exactly the later calls wait, are woken or have reported the disconnect |
| AsgiBridge.NoEarlyDisconnect | src/asgi_http.rs:59-64 | No receive reports a disconnect unless the callback has notified or the timeout has fired |
| AsgiBridge.LateReceiveWaitsForever | src/asgi_http.rs:57-59 | A call that starts waiting after notification and reply waits in every continuation, since no permit is stored |
| AsgiBridge.LateReceiveIsWokenIff | src/asgi_http.rs:57-64 | From any state a waiting receive that no wake-up has reached can still report the disconnect in some continuation if and only if the callback has not notified or the handler still waits for the start |
| AsgiBridge.BufferRequestBody | src/asgi_http.rs:396-417 | The outcome of buffering depends on the bytes and the place of a read error only: too large first, then bad request, then the whole body |
| AsgiBridge.NextKeepsInv | src/asgi_http.rs:94-211 | Every action keeps the conservation of chunks, the agreement of start slot, oneshot and reply, and the single hand-out of the request body |
| AsgiBridge.RunKeepsInv | src/asgi_http.rs:94-211 | The same for whole runs |
| AsgiBridge.HistoryMatchesTrace | src/asgi_http.rs:111-153 | The recorded history is what the action sequence says was accepted and read |
| AsgiBridge.MountedRequest.Send | src/asgi_http.rs:76-163 | The method acts as the send action of the machine and reports acceptance exactly as the source raises or returns |
| AsgiBridge.MountedRequest.SendStart | src/asgi_http.rs:94-110 | Takes the start slot once and raises afterwards |
| AsgiBridge.MountedRequest.SendBody | src/asgi_http.rs:111-153 | Keeps the slot open while more_body holds, closes it on the last message, and raises on a closed slot unless the message is empty and last |
| AsgiBridge.MountedRequest.Receive | src/asgi_http.rs:46-65 | Hands out the body the first time and registers a waiter afterwards |
| AsgiBridge.MountedRequest.DoneCallback | src/asgi_http.rs:176-211 | The four locked sections in order are a run of the machine |
| AsgiBridge.MountedRequest.TakeStart | src/asgi_http.rs:472-491 | The handler's branch on the oneshot is the machine's, and a reply that does not stream drops the receiver |
| DependencyWalk.AnalyzeDependencyTree | python/django_bolt/analysis.py:549-596 | On every finite graph, cycles included, everything is needed when some reachable dependency cannot be compiled or analysed; otherwise a component is needed exactly when the binder or the analysis of some reachable dependency found it |
| DependencyWalk.WalkDepTree | python/django_bolt/analysis.py:554-598 | The walk terminates; it adds exactly the needs of newly visited nodes, visits only reachable ones and, unless saturated, leaves the new nodes closed under edges |
| DependencyWalk.ClosedSetHoldsPaths | python/django_bolt/analysis.py:571-573 | A set with the direct dependencies and closed under edges holds the end of every path, so the visited set misses nothing |
| DependencyWalk.OnlyTheSetOfFieldsMatters | python/django_bolt/analysis.py:560-573 | Order and repetition of fields never change the answer |
| DependencyWalk.ReadsUnfold | python/django_bolt/analysis.py:582-598 | What a tree reads is what direct dependencies read themselves or through their own trees |
| ServerSentEvents.StreamDispatchesWhatWasMeant | python/django_bolt/responses.py:368-416 | For every sequence of well-formed events and pings, the interpreter run on all bytes dispatches exactly the messages of the events with a data line, in order, with data joined by LF and the last id carried along |
| ServerSentEvents.FramesAreRead | src/streaming.rs:246-266 | The same from any interpreter state between events, so pings may fall at any chunk boundary |
| ServerSentEvents.PingIsIgnored | src/streaming.rs:251-251 | A keep-alive comment changes nothing in the interpreter |
| ServerSentEvents.EventIsRead | python/django_bolt/responses.py:388-412 | The lines of one well-formed event leave exactly the fields and message it means |
| ServerSentEvents.FormatSseEvent | python/django_bolt/responses.py:384-412 | The appending loops and the fast path print the terminated lines of the event |
| ServerSentEvents.FastPathAgreesWithSlowPath | python/django_bolt/responses.py:384-386 | For non-empty data without a line boundary the fast path prints what the slow path prints |
| ServerSentEvents.EventNameSurvivesIffOneLine | python/django_bolt/responses.py:394-395 | A message with the event's name is dispatched if and only if the name has no line break |
| ServerSentEvents.EndsWithBlankLineIffSomethingPrinted | python/django_bolt/responses.py:377-379 | The promised ending of two line feeds holds exactly when some field prints a line |
| ServerSentEvents.DataSurvivesIff | python/django_bolt/responses.py:397-402 | A message with the event's data is dispatched from the printed bytes if and only if the data is not empty, its only line boundaries are line feeds and it does not end with one |
| ServerSentEvents.SplitDataIsDispatched | python/django_bolt/responses.py:394-405 | Whatever the text, split data is dispatched as one message, every line boundary turned into a line feed and a final one dropped, under the event's name and id; empty data is not dispatched |
| ServerSentEvents.CommentIsPrinted | python/django_bolt/responses.py:390-392 | The comment lines read back from the stream are the comment, every line boundary turned into a line feed and a final one dropped |
| ServerSentEvents.EmptyDataIsDropped | python/django_bolt/responses.py:397-402 | Empty split data dispatches nothing, though splitting and joining it gives it back |
| ServerSentEvents.FastPathDataSurvivesIff | python/django_bolt/responses.py:384-386 | On the fast path the encoded data is dispatched unchanged if and only if it has no line break |
| ServerSentEvents.IdSurvivesIffOneLine | python/django_bolt/responses.py:404-405 | A message with the event's id is dispatched if and only if the id has no line break and no NUL |
| ServerSentEvents.DecimalRoundTrip | python/django_bolt/responses.py:407-408 | A printed retry time is all digits and is read back as the same number |
| AsyncForwarder.NothingIsLostOrReordered | src/streaming.rs:68-141 | In every interleaving the client has a prefix of the yielded chunks; received, queued and pending are all of them while it is connected; end of stream comes only after everything |
| AsyncForwarder.StreamCanBeReadToTheEnd | src/streaming.rs:74-98 | From any state with a connected client, awaiting room included, the client can read on to the end without another item, and gets exactly the queue and the pending chunk |
| AsyncForwarder.DisconnectedForwarderStops | src/streaming.rs:74-81 | Once the client is gone at most one more item is pulled, and none while a send is pending |
| AsyncForwarder.DisconnectedForwarderCloses | src/streaming.rs:79-98 | It can then always close, in at most two steps of its own |
| AsyncForwarder.NothingIsPulledAfterTheStop | src/streaming.rs:82-98 | Nothing is pulled once the generator has stopped or yielded what cannot be sent, and the sender is closed exactly when the close action was taken |
| AsyncForwarder.AsyncStreamSender.Send | src/streaming.rs:109-136 | Continue, stop or await, each with the state the machine prescribes; stop exactly when closed or disconnected |
| AsyncForwarder.AsyncStreamSender.Close | src/streaming.rs:138-140 | Closing drops the sender and leaves the queue |
| SyncProducer.NothingIsLostOrReordered | src/streaming.rs:353-437 | The same delivery result for every batch size and capacity; the generator has been closed exactly when the thread is done |
| SyncProducer.ThreadActionsAreBounded | src/streaming.rs:357-423 | With a generator that raises StopIteration after any error, pulls and work are bounded by the number of items, whatever the client does |
| SyncProducer.WorkIsBounded | src/streaming.rs:395-422 | At most three thread actions per pull |
| SyncProducer.NoPullAfterStop | src/streaming.rs:386-400 | After StopIteration the thread never pulls again |
| SyncProducer.DisconnectedThreadStops | src/streaming.rs:398-421 | Once the client is gone the thread pulls at most one more batch of items that can be sent |
| SyncProducer.GeneratorIsClosed | src/streaming.rs:398-433 | The generator is closed twice when a send fails and once when the thread is done otherwise |
| SyncProducer.BatchTakes | src/streaming.rs:376-393 | A batch takes answers up to its size and stops behind the first that is StopIteration or another error; it then holds exactly the items that could be converted |
| SyncProducer.LoopEndsIffIteratorStops | src/streaming.rs:357-423 | For every stream of answers, batch size and capacity the thread's own actions are bounded over all runs if and only if some answer is StopIteration |
| SyncProducer.PullsGoOn | src/streaming.rs:377-422 | Without StopIteration the thread can be made to pull any number of times from any state in which it pulls, with a client that reads |
| SyncProducer.DoneStreamCanBeReadToTheEnd | src/streaming.rs:436-437 | Once the thread is done a connected client can read the rest of the queue and then the end |
| SyncProducer.LawlessIteratorSpins | src/streaming.rs:385-390 | An iterator that keeps raising another error is pulled any number of times, returns the thread to where it was and produces nothing |
| SyncProducer.FillBatch | src/streaming.rs:377-393 | The fill loop is a run of the machine's pulls, answered by the generator in order, and the batch holds exactly their converted items |
| ThreadLimit.CounterIsExactAndBounded | src/streaming.rs:319-347 | With W concurrent callers the counter equals unfinished threads plus pending adds, never underflows, is zero at rest and never exceeds the limit plus W - 1 |
| ThreadLimit.BoundIsReached | src/streaming.rs:319-347 | That bound is reached by some run |
| ThreadLimit.LimitHoldsIffSingleCaller | src/streaming.rs:319-347 | The configured limit holds in all runs if and only if there is one caller at a time |
| StreamCompression.EveryYieldDecodesToTheInputSoFar | src/streaming_compression.rs:253-274 | For every script and number of polls no yielded chunk is empty, and after each one the bytes emitted decode to exactly the chunks polled so far |
| StreamCompression.SentBytesAreTheEncoding | src/streaming_compression.rs:245-291 | For any codec an error is answered if and only if building, a write, the tail or the inner stream fails; otherwise the bytes sent are exactly the encoder's output for the polled items, with its tail once the inner stream has ended |
| StreamCompression.EveryPollIsPrompt | src/streaming_compression.rs:253-292 | Each poll sends what the encoder made of the last item it took and nothing else, and waits only when the inner stream does |
| StreamCompression.EndedStaysEnded | src/streaming_compression.rs:250-252 | An ended adapter answers end for ever and does not poll the inner stream |
| StreamCompression.EveryEndingEndsTheAdapter | src/streaming_compression.rs:259-289 | Every error and every end leaves the adapter ended, so the inner stream is not polled after its end or failure |
| StreamCompression.CompleteBodyDecodesToTheWholeInput | src/streaming_compression.rs:281-289 | A body that ended without error decodes to the whole inner stream |
| StreamCompression.IdentityIsLawful | src/streaming_compression.rs:160-169 | The codec laws can be met |
| StreamCompression.EncoderStream.Poll | src/streaming_compression.rs:245-294 | The poll loop computes the specified answer and new state and only polls an inner stream that is not over |
| FormParsing.ChunkingDoesNotMatter | src/form_parsing.rs:298-439 | However part bodies are cut into chunks, the maps or the error type are the same |
| FormParsing.SuccessMeetsEveryLimit | src/form_parsing.rs:464-517 | On success part count, upload size, field constraints and file counts hold, every file is the whole body of a part, and it is on disk exactly when larger than the memory limit |
| FormParsing.FormHoldsWhatWasSent | src/form_parsing.rs:317-433 | After success every name holds exactly what coercion makes of the whole bodies of the fields of that name, in order, and exactly the files of that name with filename, type, bytes and place |
| FormParsing.ParsingSucceedsIff | src/form_parsing.rs:306-433 | Parsing succeeds if and only if there are not too many parts, each arrives whole within its limit and is accepted by coercion or constraints, and no field has too many files |
| FormParsing.ErrorNamesTheFirstFault | src/form_parsing.rs:306-517 | The error is the fault of the first part behind an acceptable front, part count before size, size before a broken read, and both before coercion, constraints and file count |
| FormParsing.ParseMultipart | src/form_parsing.rs:298-439 | The answer is the error of the first part that raises one, and otherwise the maps that group fields and uploads in order |
| FormParsing.ParseUrlencoded | src/form_parsing.rs:217-254 | Parse error, type error or the order-preserving grouping of all coerced pairs |
| FormParsing.UrlencodedHoldsWhatWasSent | src/form_parsing.rs:217-254 | A URL-encoded form is accepted if and only if coercion accepts every pair, and then each name holds exactly what coercion makes of the texts sent under it, in order |
| FormParsing.ReadFileContent | src/form_parsing.rs:442-517 | The spooling loop's answer depends on the bytes alone |
| FormParsing.ReadFieldValue | src/form_parsing.rs:384-420 | The incremental length limit refuses exactly what a limit on the whole value refuses |
| FormParsing.ReadPart | src/form_parsing.rs:323-383 | A part is classified, read, validated and named as specified for the part alone |
| FormParsing.AddValue | src/form_parsing.rs:422-431 | Appending keeps the map equal to the order-preserving grouping: single once, multiple afterwards |
| FormParsing.ValidateFile | src/form_parsing.rs:520-555 | A file is accepted if and only if size and type meet every constraint; otherwise the error names one that fails while those checked before it hold |
| FormParsing.Violation | src/form_parsing.rs:520-555 | The error of a file that does not meet its constraints is the first that fails |
| FormParsing.IsContentTypeAllowed | src/form_parsing.rs:558-578 | True if and only if some pattern allows the type |
| FormParsing.PatternsMean | src/form_parsing.rs:559-573 | A major type with a star allows exactly the types of that major type, the two universal patterns allow all, and any other pattern only itself |
| CursorPagination.RowIsReturnedIffPresentWhenAsked | python/django_bolt/pagination.py:590-656 | In a completed walk every key falls to some request, and is returned if and only if its row exists at that request, whatever is inserted or deleted meanwhile |
| CursorPagination.NoRowIsReturnedTwice | python/django_bolt/pagination.py:614-631 | Returned keys are strictly monotone over the whole walk, so none repeats |
| CursorPagination.StableRowIsReturnedOnce | python/django_bolt/pagination.py:590-656 | A row present at all requests is returned exactly once |
| CursorPagination.UnchangedTableIsReturnedWhole | python/django_bolt/pagination.py:606-631 | On a table that does not change a completed walk returns the ordered table |
| CursorPagination.WalkIsBounded | python/django_bolt/pagination.py:633-644 | A walk makes at most one request more than there are rows ever seen |
| CursorPagination.PageHoldsItsWindow | python/django_bolt/pagination.py:614-644 | A page holds exactly the rows between its cursor and the next one, in order, and is full when there is a next cursor |
| CursorPagination.PageSaysWhetherMoreFollows | python/django_bolt/pagination.py:614-656 | has_next holds exactly when some row behind the cursor is not on the page, and has_previous exactly when a cursor was given |
| CursorPagination.EveryRowIsReturnedIff | python/django_bolt/pagination.py:606-644 | On an unchanged table whose ordering key may repeat a walk returns every row if and only if no page boundary falls inside a group of equal keys, and then the table in order |
| CursorPagination.UniqueKeysAreSafe | python/django_bolt/pagination.py:614-623 | A table without repeated keys is returned whole |
| CursorPagination.TieIsLost | python/django_bolt/pagination.py:614-623 | Two rows of one key and one row to a page: the second is lost |
| PagePagination.FollowingNextPageRebuildsTheList | python/django_bolt/pagination.py:384-430 | Following next_page from page 1 visits exactly ceil(n / size) pages, one when empty, and concatenates to the list |
| PagePagination.OverlargePageIsTheLast | python/django_bolt/pagination.py:406-408 | A page number beyond the end answers with the non-empty last page |
| PagePagination.PageTellsItsPlace | python/django_bolt/pagination.py:400-430 | A page holds the rows of its place; has_next and next_page hold exactly when rows lie behind it, has_previous and previous_page exactly when rows lie before it, and they lead to the pages that hold those |
| PagePagination.EmptyListStillHasPrevious | python/django_bolt/pagination.py:404-429 | On an empty list every page number but 1 is answered with a previous page |
| PagePagination.SteppingRebuildsTheList | python/django_bolt/pagination.py:482-518 | Stepping the offset by the limit until has_next is false rebuilds the list |
| PagePagination.SteppingRebuildsTheTail | python/django_bolt/pagination.py:501-509 | The same from any offset inside the list |
| PagePagination.WindowTellsItsPlace | python/django_bolt/pagination.py:494-518 | A window holds the rows at its offset, as many as the limit while rows lie behind it, and its flags say what lies outside |
| PagePagination.ClientGetsTheList | python/django_bolt/pagination.py:366-430 | A client that starts without a usable page parameter and follows next_page gets the whole list in ceil(n / size) pages, at whatever size its query yields |
| PagePagination.ClientStepsThroughTheList | python/django_bolt/pagination.py:452-518 | The same for a client that steps its offset by its limit |
| PagePagination.SizesStayInRangeIff | python/django_bolt/pagination.py:452-469 | No query pushes page size or limit out of 1..max_page_size if and only if the configured default lies there |
| PagePagination.SizeIsAsAsked | python/django_bolt/pagination.py:317-342 | With a default in range a number in 1..max_page_size is the size used, a larger one is cut to the maximum, and everything else gives the default |
| PagePagination.SizesAgreeIff | python/django_bolt/pagination.py:456-469 | Page size and limit understand every query alike if and only if the default does not exceed the maximum |
| PagePagination.TotalPagesIsCeiling | python/django_bolt/pagination.py:403-404 | The page count is the least number of pages that holds all rows |
| Registration.EveryApiIsConsistent | python/django_bolt/api.py:2788-2854 | In every API object that can be built from new ones by route, websocket, mount and mount_asgi calls, ids are distinct, below the next id and backed by handler, metadata and middleware, and the prefix set is the duplicate-free prefix list |
| Registration.EveryRunKeepsTheTablesConsistent | python/django_bolt/api.py:1311-1336 | Any sequence of calls on a consistent object leaves it consistent, also when some of them raise on a prefix |
| Registration.MountCopiesRoutes | python/django_bolt/api.py:2788-2840 | Every copied route, and then every websocket route, gets the next fresh id, the source's handler and metadata, the prefixed path, its middleware for that path and the sub-application as owner; ids in use keep everything |
| Registration.CopiedRouteStaysAddressableIff | python/django_bolt/api.py:2788-2794 | Below a mount, a route path that starts with one slash still does if and only if the mount path is empty or holds something else than slashes |
| Registration.CopyMountsSucceedsIff | python/django_bolt/api.py:2842-2854 | Copying ASGI mounts goes through if and only if the new prefixes are static, free and different, and then adds all of them in order and nothing else |
| Registration.RegisteredMountsAreAccepted | src/asgi_mounts.rs:11-40 | The mount list of every API object that can be built passes all checks of the Rust side |
| Registration.NormalizedPrefixPassesRustChecks | python/django_bolt/api.py:117-126 | A normalised prefix is static, passes the Rust prefix checks and is its own normal form |
| Registration.NormalizedPathIsEmptyIff | python/django_bolt/api.py:106-110 | Stripping gives the empty path exactly for two or more slashes and nothing else |
| Registration.ApplyKeepsInv | python/django_bolt/api.py:756-819 | Every single registration call keeps the invariant, also when it raises on a prefix |
| Registration.MountAsgiKeepsMounts | python/django_bolt/api.py:2856-2877 | mount_asgi keeps set and list in agreement |
| RoutePaths.RouteIsRegisteredAt | python/django_bolt/api.py:1311-1384 | A route is registered last, under the next id, at the API prefix followed by its path, or at its path alone, ending as the slash mode wants, with its handler, metadata and middleware; dependencies are cached, the first metadata of a callable kept |
| RoutePaths.RootIsRegisteredAt | python/django_bolt/api.py:1318-1333 | Without a prefix the empty path and the root are registered at the root in every slash mode |
| RoutePaths.SocketIsRegisteredAt | python/django_bolt/api.py:764-776 | A websocket route is registered at the API prefix followed by its path as it is, with its handler, metadata and middleware under the next id |
| RoutePaths.PrefixOfNewApi | python/django_bolt/api.py:360-360 | The prefix of a new object loses its slashes at the end and nothing else |
| RoutePaths.CopiedPathIs | python/django_bolt/api.py:2788-2793 | A copied path is the core of the mount path behind one slash, followed by the path of the sub-application, ending as the parent's slash mode wants |
| RoutePaths.MountedRoutesLieBelow | python/django_bolt/api.py:2790-2824 | The same of every route and websocket route behind those that were there |
| RoutePaths.AsgiMountIsFiledUnder | python/django_bolt/api.py:2865-2877 | An ASGI mount is filed under the core of the API prefix and its own core, each behind one slash, and refused exactly when one of them has a brace |
| RoutePaths.AsgiRootIsFiledUnder | python/django_bolt/api.py:2865-2871 | Mounted at the root an application is filed under the API prefix alone |
| RoutePaths.CopiedMountIsFiledUnder | python/django_bolt/api.py:2842-2849 | A copied ASGI mount is filed under the core of the mount path followed by its own prefix, under that core alone when it was at the root, and under its own prefix without a mount path |
| RoutePaths.InterruptedMountKeepsTheFront | python/django_bolt/api.py:2842-2854 | When a prefix is refused the mounts before the first refused one stay filed, and the error says whether that one is dynamic or taken |
| BoltApi.BoltAPI.constructor | python/django_bolt/api.py:352-462 | A new object is the empty state, with trailing slashes off its prefix, and is appended to the registry |
| BoltApi.BoltAPI.AddRoute | python/django_bolt/api.py:1311-1384 | The in-place updates compute the new state, cached dependency metadata left alone |
| BoltApi.BoltAPI.AddSocket | python/django_bolt/api.py:756-797 | The in-place updates compute the new state |
| BoltApi.BoltAPI.MountAsgi | python/django_bolt/api.py:2856-2877 | The new mounts and the error, if any |
| BoltApi.BoltAPI.Mount | python/django_bolt/api.py:2788-2858 | The copying loops compute the new state, including what is left when a prefix is refused midway; the sub-application leaves the registry only when none is |
| BoltApi.BoltAPI.FileCopy | python/django_bolt/api.py:2796-2816 | A copied handler is filed under the next id with its metadata and, with the new path, its middleware |
| BoltApi.MountedLeavesTheRegistry | python/django_bolt/api.py:2856-2858 | The mounted object is gone from the registry and every other stays registered once |
| BoltApi.OnlyTheFirstLeaves | python/django_bolt/api.py:2856-2858 | Only the first occurrence leaves the registry, and everything around it keeps its place |
| AsgiMounts.ValidateAndSort | src/asgi_mounts.rs:6-43 | A list is accepted if and only if every prefix is valid and no equal prefixes are neighbours among those of their length in bytes; it is then sorted stably by descending length; an error about a prefix names what is wrong with the first invalid one |
| AsgiMounts.ValidPrefixIff | src/asgi_mounts.rs:11-24 | A prefix passes if and only if it is the root, or opens with a slash and its last segment is not empty |
| AsgiMounts.ByteLengthIsEncodedLength | src/asgi_mounts.rs:29-30 | The length that orders the mounts is that of the UTF-8 encoding of section 3 of RFC 3629 |
| AsgiMounts.SortIsOrdered | src/asgi_mounts.rs:29-30 | The sorted list is descending in UTF-8 length and a permutation |
| AsgiMounts.SortIsStable | src/asgi_mounts.rs:29-30 | Prefixes of one length keep their order |
| AsgiMounts.HiddenDuplicateIsAccepted | src/asgi_mounts.rs:32-40 | A concrete list with a duplicate that is accepted |
| AsgiMounts.LongestPrefixWins | src/state.rs:48-52 | Lookup finds a mount if and only if some prefix matches, and every other matching prefix is a proper part of the found one |
| AsgiMounts.MatchesOnSegmentBoundary | src/state.rs:32-45 | A prefix other than "/" matches exactly the paths whose segments start with its own |
| AsgiMounts.SubpathCompletesThePrefix | src/asgi_http.rs:278-297 | Prefix and subpath give back the path, plus a slash when they are equal |
| AsgiMounts.DjangoRewriteRestoresIff | python/django_bolt/api.py:164-177 | The rewrite restores the request path if and only if the mount is "/" or the subpath does not start with the root path |
| AsgiMounts.DjangoRewriteCanFail | python/django_bolt/api.py:174-175 | A concrete path that is not restored |
| PathTemplates.ConvertPath | src/router.rs:65-111 | The character loop prints the segments read from the template, on every string |
| PathTemplates.ConvertIsIdempotent | src/router.rs:65-111 | Converting twice is converting once, unterminated braces included |
| PathTemplates.ConvertKeepsParameters | src/router.rs:84-104 | Reading the converted path gives the same literals and parameters in order, starred exactly when the converter is "path" |
| PathTemplates.TemplatesAgreeIff | python/django_bolt/urls.py:38-48 | Read back, the reverse route has the literals and parameters the router serves, in order and with the same catch-alls, leading slashes aside, if and only if every parameter is closed, named without a closing angle bracket and has no empty converter, and no literal opening bracket is given a body by a later closing one |
| PathTemplates.WithoutBracketsWellFormedSuffices | python/django_bolt/urls.py:38-48 | Well-formed templates without angle brackets are read back as served |
| PathTemplates.LiteralBracketsAreMisread | python/django_bolt/urls.py:38-48 | Two well-formed templates that the router tells apart share one reverse route |
| PathTemplates.MatchAtIsThePattern | python/django_bolt/urls.py:35-38 | The matcher finds a match exactly when the regular expression has one at that place, and there is only one |
| PathTemplates.ScanIsInvertible | src/router.rs:69-109 | Printing the segments of a template in its own syntax gives the template back |
| UrlNames.ChooseRoutes | python/django_bolt/urls.py:74-91 | Without an error each key holds the specified winner of its entries and no key has a conflict; an error names a key with one |
| UrlNames.ReportedDuplicatesAreReal | python/django_bolt/urls.py:87-89 | A conflict means two explicit entries with different routes |
| UrlNames.ChosenRouteIsFirstOrExplicit | python/django_bolt/urls.py:79-91 | The winner is the first route when no entry is explicit and an explicit entry's route otherwise |
| UrlNames.DifferentNamesGoUnreportedIff | python/django_bolt/urls.py:84-91 | Explicit names that differ go unreported exactly when a derived route is repeated by explicit names and then replaced once |
| UrlNames.DifferentNamesCanGoUnreported | python/django_bolt/urls.py:85-86 | A concrete run of three entries without an error |
| MiddlewareCaches.EveryoneUsesTheSame | python/django_bolt/api.py:2522-2536 | In every interleaving a running request uses a built chain, the same as every other, and requests for one handler use the same executor |
| MiddlewareCaches.NothingIsBuiltTwice | python/django_bolt/api.py:2485-2502 | In every run at most one chain and at most one executor per handler are built, failed builds not counted |
| MiddlewareCaches.CachedEntriesNeverChange | python/django_bolt/api.py:2496-2502 | A cached chain or executor is never replaced or dropped |
| MiddlewareCaches.OwnMetadataIff | python/django_bolt/api.py:2462-2502 | In every run each running request uses an executor built from its own metadata if and only if all routes of each handler have the same metadata |
| MiddlewareCaches.TwoRoutesShareAnExecutor | python/django_bolt/api.py:2485-2502 | A run with one request to each of two routes of a handler, in which one of them runs with the metadata of the other |
| MiddlewareCaches.RunsThrough | python/django_bolt/api.py:2522-2536 | A request that is alone in the locks runs through and leaves the others as they are |
| MiddlewareCaches.MoveKeepsOthers | python/django_bolt/api.py:2522-2527 | A step of one request never invalidates what another one knows |
| MiddlewareCaches.NoDeadlock | python/django_bolt/api.py:2485-2527 | While a request has not finished, some request can take a step |
| MiddlewareCaches.StepsAreBounded | python/django_bolt/api.py:2485-2536 | Every step brings its request nearer to the end and moves no other |
| JsonEscaping.ChainIsSimultaneous | src/error.rs:245-251 | The five replacements are one simultaneous per-character map |
| JsonEscaping.ScanUndoesEscape | src/error.rs:245-251 | Scanning from the opening quote stops at the closing quote with the original text if and only if its only control characters are LF, CR and TAB |
| JsonEscaping.InternalErrorBodyParsesBackIff | src/error.rs:195-218 | A 500 body parses to exactly the intended object if and only if every text in it is of that kind |
| JsonEscaping.ParseUndoesPrint | src/error.rs:197-218 | Printing a nested object and parsing it gives it back under the same condition |
| JsonEscaping.ValidationErrorBody | src/responses.rs:99-118 | The byte loop prints the specified body |
| JsonEscaping.ValidationBodyParsesBackIff | src/responses.rs:99-113 | A 422 body parses back to its detail if and only if the detail has no control character |
| JsonEscaping.LoopAgreesWithChain | src/responses.rs:104-112 | Without control characters the loop and the chain print the same |

## Left out

- Sockets, the HTTP server, the Python interpreter, the event loop and start-up: not part of this model.
- ASGI sends cancelled while they wait for room in the channel, and clients that vanish while the handler waits for the start.
- Response headers of a mounted application, its scope and its timeout value; the timeout may fire at any moment while the handler waits.
- UTF-8 encoding and decoding: text is a sequence of characters, and the 422 loop, which works on bytes, only inspects ASCII ones.
- Surrogate escapes in JSON strings: the parser rejects them, and neither printer emits them.
- Errors of the temporary file during spooling.
- Typed coercion and lossy decoding of form values: opaque functions of name and bytes.
- Splitting a URL-encoded body into pairs, and finding the parts of a multipart body.
- The text of error messages: errors are compared by type.
- The encoding of cursors, database evaluation and serialization: a cursor is the key itself.
- Cursor walks over keys that are null or changed; and over repeated keys in a table that changes, or whose rows of one key the database orders differently from one request to the next.
- Python's `int()` on query parameters: a parameter is missing, not a number, or a number.
- Codec internals: any codec that obeys the flush and finish laws.
- The start of the stream thread, where the iterator is obtained and may be refused, and the reading of batch and channel sizes from the environment.
- Panics of the producer thread, which would leave the counter raised.
- Memory order of the thread counter: each load and add is one atomic action.
- Registrations that raise midway for other reasons than a mount prefix, and how middleware metadata is compiled: it is given to the call.
- The check of ASGI mounts against route paths at start-up, which reads the same lists.
- BoltApi.BoltAPI.Mount: owners and registered objects are the identities of API objects, not the objects.
- PathTemplates.TemplatesAgreeIff: Django's own checks on names and converters are not part of the reading, which follows its `<name>` and `<converter:name>` syntax.
- ServerSentEvents.StreamDispatchesWhatWasMeant: leaves out the text and bytes that a handler yields unframed.
- MiddlewareCaches.NoDeadlock: shows that a step is always possible, not that a scheduler takes it.
- UrlNames.ChooseRoutes: does not model the grouping of the chosen routes under namespaces.
- Settings, authentication, guards, CORS, rate limits, static files, handler fast paths, OpenAPI, admin and command line: outside the core.
