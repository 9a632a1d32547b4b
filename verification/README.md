# Redfish client SDK: verified models of its algorithms and protocols

The repository is a client SDK for Redfish management controllers in Python, C++ and Rust. Most of
it forwards HTTP calls; this project models the parts that compute something or run a protocol, and
proves what they promise, for every input, every script of outcomes and every interleaving. One
module stands for one component:

| module | what it models |
|---|---|
| `Base64`, `Base64Codec` | section 4 of RFC 4648 as a reference, and the three hand-written C++ loops that compute it on 32-bit words |
| `EventRecorder` | what the C++, Python and Rust event listeners keep and call for an event: ring buffer, per-address counters, callbacks |
| `ConcurrentListener` | the C++ listener with any number of connection threads, as a step relation over all interleavings |
| `ListenerLifecycle` | start, stop, the self-pipe and the accept loop of the C++ listener as a protocol over file descriptors |
| `RequestReader` | how the C++ listener cuts a request out of a byte stream |
| `SseSplitter` | the incremental server-sent-event splitter shared by two Python streams |
| `LogPaging`, `PageBridge`, `LogIteration` | following `Members@odata.nextLink`, the Python producer thread, queue and sentinel around it, and both together |
| `Retry` | the retry loops of the three HTTP clients on a common script of attempt outcomes |
| `TaskPolling` | waiting for and monitoring a long-running task in Python |
| `ODataQuery` | the two builders of log query strings and the reader that inverts them |
| `SelRecord`, `SelRendering`, `SelLiterals` | the two decoders of raw IPMI SEL records, what they make of any rendering of one, and of literal characters and records |
| `Discovery` | full service discovery in Rust, over every iteration order of its hash maps |
| `Bits`, `Texts`, `Wrappers` | bitwise operators on numbers, ASCII text helpers, `Option` |

Code that mutates is modelled as methods and classes with the same loops, branches and fields, each
proved against specification functions; the laws are lemmas about those functions. Threads and
processes are step relations: a run is a sequence of states, and the results hold in every state of
every run. `dafny verify dfyconfig.toml` checks the project.

## What the code does not keep

Properties one would expect and the code does not have, each with the exact condition under which
it does:

- **A failed `start` can leave descriptors open.** When the creation of the supervisor thread fails,
  `running_` is already set and three descriptors stay open until `stop`; every other failure
  closes everything (`ListenerLifecycle.OpenAfterFailedStart`, with a concrete run in
  `FailedStartLeaks`).
- **The retry loops do not settle on the same attempt**, not even without TLS failures: a connect
  timeout is retried by Python and Rust only, a read timeout by Rust only, a broken connection by
  C++ only, a TLS failure by Rust only, and Python takes a refused connection for a TLS failure when
  its text contains "ssl", "tls" or "wrong version". They agree exactly when the first attempt that
  not all three would retry, if the retry count leaves it in reach, is a response
  (`Retry.AgreeExactly`), and report the same exactly when that attempt, or else the last one, is a
  response or a plain refusal (`Retry.ReportsAgreeExactly`; `ReportsDisagree`, `TlsDisagrees` and
  `ConnectTimeoutDisagrees` are scripts on which they do not).
- **The query builders differ on empty fields**: Python skips an empty filter field, C++ uses it.
  They write the same text exactly when the first filter field present is not empty
  (`ODataQuery.BuildersAgree`; `EmptyFilterWitness` is a query on which they do not).
- **Python and C++ read the SEL record type from different bytes** (byte 2 and byte 0; section 32.2
  of the IPMI v2.0 specification has it in byte 2, counting from 0). `SelRendering.TypesAgree` says
  when the reported types coincide, `TypesDiffer` is a record on which they do not, and
  `SelLiterals.PxeStart` the documented one. C++ also accepts
  a pair whose second character is no digit, and a sign for a first digit, so the two accept whole
  records alike exactly as `SelRendering.AcceptAlike` says; `HalfDigitsAccepted` is a text only C++
  accepts.
- **Discovery depends on the map's order** when two services bring one name with different URIs,
  which takes a top-level name with a slash (`Discovery.OrderIrrelevant`, `ConflictShows`,
  `SimpleNamesNoConflict`, `SlashCanConflict`).
- **The Rust listener calls callbacks registered for the empty prefix** on events without a message
  id: it delivers as the others do exactly when the event has one or that prefix has no callbacks
  (`EventRecorder.RustDeliversAlike`, and `EmptyPrefixDiffers` for an instance).
- **The Rust listener counts requests, not events, per address**: counters that are right stay right
  exactly on a request that holds one event, and over a run they count events exactly when every
  address sent as many requests as events (`EventRecorder.OnePostOneEvent`, `RequestsForEvents`;
  `RequestsMiscount` has a request without events and one with two).
- **The C++ per-address counters wrap at 2^32**, so they sum to the number of recorded events exactly
  when no address sent 2^32 or more (`ConcurrentListener.StatsSumToHistory`).
- **The header limit of the C++ listener is one byte off its constant**: the length is tested
  after the byte has been added and after the test for the blank line, so a header of 16385 bytes
  is still accepted (`RequestReader.ReadHeader`).

Three places where documentation and code differ; the models follow the code. docs/requirements.md:326
rules out background threads outside the listener, but `iter_entries` starts one per iteration
(python/redfish_sdk/services/log_service.py:348). docs/requirements.md:214 asks for a counter of
events per source address; the Rust listener counts requests
(rust/redfish-sdk/src/events/listener.rs:329-333). The list of record types in
python/redfish_sdk/services/log_service.py:45-49 lacks the "HostOsUnknown" that line 129 returns.

## Model

| member | source | states |
|---|---|---|
| Base64.TableInverse | cpp/src/services/ras_service.cpp:26-54 | The decoding table inverts the alphabet in both directions. |
| Base64.UpperLetters | cpp/src/services/ras_service.cpp:26-27 | Values 0 to 25 are A to Z. |
| Base64.LowerLetters | cpp/src/services/ras_service.cpp:26-27 | Values 26 to 51 are a to z. |
| Base64.Digits | cpp/src/services/ras_service.cpp:26-27 | Values 52 to 61 are 0 to 9. |
| Base64.PlusAndSlash | cpp/src/transport/auth.cpp:17-18 | Values 62 and 63 are plus and slash, so that with TableInverse both tables are those of RFC 4648 character by character. |
| Base64.SameNumber | cpp/src/services/ras_service.cpp:33-39 | The four sextets of three bytes are the same 24-bit number, most significant first. |
| Base64.TestVectors | cpp/src/services/ras_service.cpp:29-42 | Texts with two, one and no padding characters, and one that uses both plus and slash. |
| Base64.EncodeLength | cpp/src/services/ras_service.cpp:29-42 | The text of n bytes has exactly 4 * ceil(n / 3) characters. |
| Base64.EncodeConcat | cpp/src/services/ras_service.cpp:29-42 | Encoding distributes over concatenation when the left part is a whole number of 3-byte groups. |
| Base64.DecodeEncode | cpp/src/services/ras_service.cpp:29-71 | Decoding undoes encoding for every byte sequence. |
| Base64.EncodeIsCanonical | cpp/src/services/ras_service.cpp:29-42 | Encoded text is canonical: whole quartets, padding only at the end, spare bits zero (sections 3.2 and 3.5 of RFC 4648). |
| Base64.EncodeDecode | cpp/src/services/ras_service.cpp:29-71 | Encoding undoes decoding exactly on the canonical texts. |
| Base64.DecodeLength | cpp/src/services/ras_service.cpp:55-70 | k alphabet characters decode to floor(3k / 4) bytes, whatever else the text holds. |
| Base64.DecodeConcat | cpp/src/services/ras_service.cpp:55-70 | Decoding distributes over concatenation when the left part has a multiple of four alphabet characters. |
| Base64.StraysIgnored | cpp/src/services/ras_service.cpp:60-62 | Line breaks, padding and stray characters inserted anywhere change nothing. |
| Base64Codec.BlockFields | cpp/src/services/ras_service.cpp:33-39 | The four table indices cut from the 24-bit word by shift and mask are the sextets of the three bytes. |
| Base64Codec.EncodeBlocks | cpp/src/services/ras_service.cpp:29-42 | The 3-byte block loop computes the reference encoding. |
| Base64Codec.EncodeAccumulating | cpp/src/transport/auth.cpp:16-32 | The bit-accumulator loop computes the reference encoding for any storage of its never masked accumulator that keeps the low 12 bits. |
| Base64Codec.EncodeCredentials | cpp/src/transport/auth.cpp:16-32 | So it does with the accumulator wrapping as a signed 32-bit int. |
| Base64Codec.EncodeUnbounded | cpp/src/transport/auth.cpp:16-32 | And with an accumulator that grows without bound: both encoders and both widths give one text. |
| Base64Codec.Wrap32KeepsLowBits | cpp/src/transport/auth.cpp:20-22 | Two's complement wrap-around stays in range, takes off a multiple of 2^32 and leaves the low 12 bits alone. |
| Base64Codec.DecodeText | cpp/src/services/ras_service.cpp:44-71 | The streaming decoder with its unmasked 32-bit buffer computes the reference decoding. |
| Base64Codec.DecodeRound | cpp/src/services/ras_service.cpp:63-68 | One round on one character: the bits that wait are those of the last sextet although the buffer's high bits are dropped, and the byte written is the one the reference adds. |
| EventRecorder.LastNAbsorbs | rust/redfish-sdk/src/events/listener.rs:349-358 | The last n of (the last n of s) followed by t are the last n of s followed by t: why event-wise, batched and pop-then-push updates agree. |
| EventRecorder.LastNMeaning | cpp/src/events/listener.cpp:535-537 | The last n are the end of the sequence, n elements or all there are. |
| EventRecorder.ParsedCount | cpp/src/events/listener.cpp:454-455 | A payload has as many events as records that are objects. |
| EventRecorder.ParsedAt | cpp/src/events/listener.cpp:454-455 | Each record that is an object is among them, at the place that the objects before it leave it. |
| EventRecorder.CountMeaning | cpp/src/events/listener.cpp:534 | The count of an address is the number of places in the history with that address. |
| EventRecorder.DeliveriesMeaning | cpp/src/events/listener.cpp:454-496 | The deliveries of a payload are those of its events one after the other. |
| EventRecorder.RustTargetsAreMatches | rust/redfish-sdk/src/events/listener.rs:95-113 | In Rust they are the registered ones for the event, its type or its prefix, the empty prefix included, in the same order. |
| EventRecorder.RustDeliveriesMeaning | rust/redfish-sdk/src/events/listener.rs:361-364 | And the deliveries of a request those of its events one after the other. |
| EventRecorder.RegistryPrefix | cpp/src/events/listener.cpp:544-549 | The prefix of a message id: a prefix without a dot, ended by the first dot or the end of the id. |
| EventRecorder.RegistryPrefixUnique | python/redfish_sdk/events/listener.py:521-525 | No other text has that property. |
| EventRecorder.TargetsAreMatches | cpp/src/events/listener.cpp:505-524 | The callbacks called for an event are exactly the registered ones that match, each once, global before type before registry, each table in order of registration. |
| EventRecorder.TargetsSample | cpp/src/events/listener.cpp:505-524 | One event that reaches one global callback, two for its type and one for its registry, in this order. |
| EventRecorder.IncrementCounts | cpp/src/events/listener.cpp:534 | Incrementing a 32-bit counter keeps every counter equal to the count in the history modulo 2^32, over exactly the addresses seen. |
| EventRecorder.BatchCounts | python/redfish_sdk/events/listener.py:499-503 | Adding the batch size keeps every counter equal to the count in the history. |
| EventRecorder.CppListener.RecordEvent | cpp/src/events/listener.cpp:530-538 | The history grows by the event; the buffer stays its last buffer_size events and the counters stay its counts. |
| EventRecorder.CppListener.Dispatch | cpp/src/events/listener.cpp:505-524 | The calls made are those of the matching callbacks, in order. |
| EventRecorder.CppListener.HandlePost | cpp/src/events/listener.cpp:454-496 | A POST records exactly its parsed events in order and delivers each of them to its callbacks exactly once. |
| EventRecorder.PythonListener.Extend | python/redfish_sdk/events/listener.py:504 | Extending a bounded deque leaves the last maxlen elements. |
| EventRecorder.PythonListener.ParsePayload | python/redfish_sdk/events/listener.py:443-506 | The batched update refines the same history: buffer its last events, counters its counts. |
| EventRecorder.PythonListener.BuildDispatchTasks | python/redfish_sdk/events/listener.py:508-527 | The scheduled callbacks are the same, in the same order, as those C++ calls. |
| EventRecorder.RustListener.PushAll | rust/redfish-sdk/src/events/listener.rs:349-358 | Popping before pushing at capacity 500 leaves the last 500 events. |
| EventRecorder.RustListener.Dispatch | rust/redfish-sdk/src/events/listener.rs:95-113 | The calls made, including those for the empty prefix. |
| EventRecorder.RustListener.HandlePost | rust/redfish-sdk/src/events/listener.rs:313-375 | The buffer is the last 500 events of the history; the counters count requests, and counters that counted events keep doing so exactly when the request holds one event; every event is delivered once, in order. |
| EventRecorder.OnePostOneEvent | rust/redfish-sdk/src/events/listener.rs:329-333 | Counting a request keeps per-address event counts right exactly when the request holds one event. |
| EventRecorder.RequestsForEvents | rust/redfish-sdk/src/events/listener.rs:329-333 | Over any number of requests the counters count events exactly when every address sent as many events as requests. |
| EventRecorder.RequestsMiscount | rust/redfish-sdk/src/events/listener.rs:329-333 | A request without events and one with two, either of which leaves a fresh listener with a wrong counter. |
| EventRecorder.RustDeliversAlike | rust/redfish-sdk/src/events/listener.rs:95-113 | Rust calls the callbacks the others call unless the event has no message id and the empty prefix has callbacks. |
| EventRecorder.EmptyPrefixDiffers | rust/redfish-sdk/src/events/listener.rs:106-112 | An event without a message id that only Rust delivers, to a callback for the empty prefix. |
| ConcurrentListener.RunKeepsInv | cpp/src/events/listener.cpp:454-538 | The invariant of all threads together holds in every state of every interleaving. |
| ConcurrentListener.BufferIsLastEvents | cpp/src/events/listener.cpp:530-538 | In every interleaving the ring buffer holds, element by element, the end of one global history, buffer_size events or all there are. |
| ConcurrentListener.ConnectionFaithful | cpp/src/events/listener.cpp:454-496 | A connection's part of the history is a prefix of its parsed records, under its own address, and its calls a prefix of what these must deliver, in order; a finished connection has recorded and delivered everything. |
| ConcurrentListener.HistoryOfAt | cpp/src/events/listener.cpp:492 | Every entry of a connection is in its part of the history, at the place that its entries before leave it. |
| ConcurrentListener.CallsOfAt | cpp/src/events/listener.cpp:495 | The same of its calls. |
| ConcurrentListener.RunsGrow | cpp/src/events/listener.cpp:454-538 | History and calls only grow; a connection keeps its peer and records and never goes back. |
| ConcurrentListener.AcceptBringsWork | cpp/src/events/listener.cpp:305-319 | A connection can be accepted in every state and starts at its first record. |
| ConcurrentListener.StepsDoWork | cpp/src/events/listener.cpp:454-496 | Every other step does exactly one unit of the work of a connection: a record passed over, an event recorded or a callback called. |
| ConcurrentListener.WorkIsUnfinished | cpp/src/events/listener.cpp:454-496 | No work is left exactly when every connection is through its records and callbacks. |
| ConcurrentListener.WorkGoesOn | cpp/src/events/listener.cpp:454-496 | As long as work is left, and no longer, some connection thread has a step: no interleaving gets stuck before every connection has finished. |
| ConcurrentListener.StatsAreCounts | cpp/src/events/listener.cpp:534 | In every interleaving the counters are those of the addresses in the history, each its count modulo 2^32. |
| ConcurrentListener.StatsSumToHistory | cpp/src/events/listener.cpp:534 | In every interleaving the per-address counters sum to the length of the history exactly as long as no address has 2^32 events in it. |
| ConcurrentListener.OncePerEvent | cpp/src/events/listener.cpp:507-508 | Recording an event schedules every global callback exactly once. |
| ConcurrentListener.StepKeepsBalance | cpp/src/events/listener.cpp:492-495 | No step of any thread changes calls made plus calls owed minus events recorded. |
| ConcurrentListener.GlobalCallsFollowHistory | cpp/src/events/listener.cpp:492-508 | Calls to a global callback never exceed the recorded events, and equal them exactly when no thread still owes it a call. |
| ListenerLifecycle.StepKeepsInv | cpp/src/events/listener.cpp:194-321 | Every step of start, stop, supervisor and handlers, succeeding or failing, keeps the descriptor invariant. |
| ListenerLifecycle.SupervisorFdsLive | cpp/src/events/listener.cpp:283-308 | While the supervisor exists, both descriptors it selects on are open. |
| ListenerLifecycle.ClosedAtMostOnce | cpp/src/events/listener.cpp:194-321 | In every run no descriptor is closed twice or while not open, and select and accept only see open descriptors. |
| ListenerLifecycle.NothingOpenAfterStop | cpp/src/events/listener.cpp:236-254 | After stop only the clients of connection threads are still open. |
| ListenerLifecycle.OpenAfterFailedStart | cpp/src/events/listener.cpp:194-234 | After a failed start the listener's descriptors are open exactly when the creation of the supervisor thread failed. |
| ListenerLifecycle.FailedStartLeaks | cpp/src/events/listener.cpp:230-231 | A concrete run: idle after a failed start with three descriptors open. |
| ListenerLifecycle.AfterStart | cpp/src/events/listener.cpp:194-234 | After a start that succeeded the listener runs with its supervisor and three descriptors of its own. |
| ListenerLifecycle.StartOutcome | cpp/src/events/listener.cpp:194-234 | What start comes to by which of its four calls succeed: it starts exactly when all do, and otherwise leaves the open descriptors as they were unless it was the thread that failed. |
| ListenerLifecycle.KeepsServing | cpp/src/events/listener.cpp:285-320 | While the listener runs, only a failing select ends its supervisor. |
| ListenerLifecycle.ExitMeansFailure | cpp/src/events/listener.cpp:296 | In every run a supervisor that has exited although the listener runs has met a failing select before. |
| ListenerLifecycle.Serves | cpp/src/events/listener.cpp:285-319 | From every state at its loop condition a running listener accepts a client in three steps and is back there, with a thread for the client. |
| ListenerLifecycle.HandlerCloses | cpp/src/events/listener.cpp:313-318 | A connection thread can always finish; its descriptor is closed then and nothing else changes. |
| ListenerLifecycle.MainHasStep | cpp/src/events/listener.cpp:194-254 | Inside start and stop there is always a next step, but for the join. |
| ListenerLifecycle.MainGoesOn | cpp/src/events/listener.cpp:194-254 | Each of them brings the end closer and no other thread sets it back. |
| ListenerLifecycle.CallsWithoutEffect | cpp/src/events/listener.cpp:196 | start on a running listener and stop on one that is not change nothing. |
| ListenerLifecycle.WakeByte | cpp/src/events/listener.cpp:241-245 | A byte in the wake pipe makes any outcome of select end the supervisor; without one the pipe is never reported. |
| ListenerLifecycle.StepTowardsExit | cpp/src/events/listener.cpp:285-320 | Once running_ is cleared every supervisor step comes closer to its exit and no other step sets it back. |
| ListenerLifecycle.JoinComes | cpp/src/events/listener.cpp:239-247 | While stop waits, the supervisor moves at most three times, the join is possible exactly when no move is left, and until then it has a step. |
| RequestReader.ReadHeader | cpp/src/events/listener.cpp:332-343 | The header is the shortest prefix ending in CR LF CR LF; it is given up exactly when there is none within 16385 bytes. |
| RequestReader.HeaderMeaning | cpp/src/events/listener.cpp:339-341 | A header ends behind the first carriage return, line feed, carriage return, line feed. |
| RequestReader.ReadBody | cpp/src/events/listener.cpp:402-414 | However recv splits the stream, the buffer holds the next Content-Length bytes, or all there are followed by zeros, and nothing beyond them is consumed. |
| RequestReader.ReadRequest | cpp/src/events/listener.cpp:327-414 | Header, body and rest sent one after another are cut apart where they were joined, however recv splits them, and the rest stays unread (section 6.2 of RFC 9112); a request is dropped exactly when it has no header within the limit. |
| SseSplitter.FindBlank | python/redfish_sdk/services/event_service.py:189-190 | The first blank line, or -1 exactly when there is none. |
| SseSplitter.RejoinRebuilds | python/redfish_sdk/services/event_service.py:189-190 | Blocks rejoined with blank lines and the buffer rebuild the text; the buffer holds no blank line. |
| SseSplitter.SplitWitness | python/redfish_sdk/services/event_service.py:189-190 | A stream with an event, an empty block and the beginning of another event, cut. |
| SseSplitter.CutUnique | python/redfish_sdk/services/event_service.py:189-190 | No other way of cutting a text has that property. |
| SseSplitter.CutAppend | python/redfish_sdk/services/event_service.py:187-190 | Cutting first and appending later gives the blocks and buffer of cutting once at the end. |
| SseSplitter.EmittedGrows | python/redfish_sdk/services/event_service.py:187-193 | A block that has been emitted is never taken back by more text. |
| SseSplitter.ChunkingIrrelevant | python/redfish_sdk/services/event_service.py:186-193 | Two ways of cutting a stream into chunks give the same blocks and the same buffer. |
| SseSplitter.Stream | python/redfish_sdk/services/telemetry_service.py:144-151 | The nested loop emits what the parser makes of the blocks of the whole text, in order, and keeps its rest. |
| SseSplitter.EventsAppend | python/redfish_sdk/services/event_service.py:191-193 | A further block adds what the parser makes of it, if anything. |
| LogPaging.PageIterator.Next | python/redfish_sdk/services/log_service.py:309-320 | Resuming the generator yields the next page of the chain, or ends exactly when the chain or the page limit is over. |
| LogPaging.PagesLinked | python/redfish_sdk/services/log_service.py:309-320 | The first page comes from the first URI and each further one from the link of the one before; the chain ends only behind a page that failed, is no object or has no link, or an empty one. |
| LogPaging.EndsMeaning | python/redfish_sdk/services/log_service.py:309-320 | The chain is over after n pages exactly when there is no page n + 1. |
| LogPaging.MembersMeaning | python/redfish_sdk/services/log_service.py:314 | The members of pages are those of each, one after the other. |
| LogPaging.Collect | python/redfish_sdk/services/log_service.py:300-320 | Draining it gives the chain, cut at max_pages, and terminates when there is a limit or the chain is finite. |
| LogPaging.IterEntries | cpp/src/services/log_service.cpp:73-101 | Whenever the chain ends or the callback says stop on some page, the C++ loop delivers the first pages of the chain up to the first on which the callback stops, or all. |
| LogPaging.DeliveryUnique | cpp/src/services/log_service.cpp:86-100 | That determines the pages delivered, and the loop ends in no other way. |
| LogPaging.LoopsAgree | cpp/src/services/log_service.cpp:86-100 | A callback that never stops is the Python iterator without a limit; one that stops at page m is max_pages = m, on finite and on cyclic chains. |
| LogPaging.WholeLogOnce | docs/RedfishLoggingTechniques.md:62-67 | Against a server that cuts a log into pages of any sizes of at least 1, paging ends and the members are exactly the log from the offset on, once and in order. |
| LogPaging.LimitedLogIsPrefix | python/redfish_sdk/services/log_service.py:309-311 | With a page limit the pages are a prefix of that chain and the members a prefix of that log. |
| PageBridge.PagesConserved | python/redfish_sdk/services/log_service.py:334-357 | In every interleaving, pages yielded followed by pages queued are the pages produced. |
| PageBridge.SentinelIsLast | python/redfish_sdk/services/log_service.py:342-353 | There is a sentinel in the queue only when the producer is through, it is the last item and the only one, and the consumer joins only behind it. |
| PageBridge.OutcomeFaithful | python/redfish_sdk/services/log_service.py:340-357 | A consumer that returns has yielded every page of a run without failure; one that raises has yielded every page first and raises the producer's exception. |
| PageBridge.RunsEnd | python/redfish_sdk/services/log_service.py:334-357 | Every step of either thread uses up a bounded measure, so no run is infinite. |
| PageBridge.ItemOrProducer | python/redfish_sdk/services/log_service.py:350-352 | A consumer that waits has an item to take or a producer that can still put one. |
| PageBridge.ConsumerNeverStuck | python/redfish_sdk/services/log_service.py:350-357 | A run in which nothing but giving up is possible has a finished producer and a consumer that is no longer waiting: it returned, raised or gave up. |
| LogIteration.LogThroughTheBridge | python/redfish_sdk/services/log_service.py:300-357 | Over producer, queue and consumer in every interleaving: the entries yielded are a prefix of the log from the offset on, all of it, once and in order, when the consumer returns without a page limit, and a run that is over has returned unless it failed or was given up. |
| Retry.SettleUnique | python/redfish_sdk/transport/http_client.py:145-181 | The attempt a client settles on is the only one that is preceded by retried attempts alone and is itself not retried or the last. |
| Retry.PythonRequest | python/redfish_sdk/transport/http_client.py:145-196 | Python settles on the first attempt it does not retry, else the last; sleeps are one fewer than attempts; a connection failure reported is that attempt's; the fallback behind the loop is never reached. |
| Retry.CppRequest | cpp/src/transport/http_client.cpp:193-249 | The same of the C++ loop and what it retries. |
| Retry.RustRequest | rust/redfish-sdk/src/transport/http_client.rs:79-106 | The same of the Rust loop and what it retries. |
| Retry.AgreeExactly | rust/redfish-sdk/src/errors.rs:37-48 | The three make the same number of attempts exactly when the first attempt not all would retry, if in reach, is a response. |
| Retry.ReportsAgreeExactly | cpp/src/transport/http_client.cpp:199-248 | The three report the same exactly when the first attempt not all of them would retry, or else the last one, is a response or a plain refusal; they have then settled on that very attempt. |
| Retry.OnResponse | cpp/src/transport/http_client.cpp:215-230 | With one retry allowed, a status is tried again by all three clients or by none, and reported as it is. |
| Retry.OnReadTimeout | python/redfish_sdk/transport/http_client.py:167 | A read timeout is tried again by Rust alone; the others hand it through. |
| Retry.OnBroken | cpp/src/transport/http_client.cpp:180-181 | A broken connection is tried again, and then reported as unreachable, by C++ alone. |
| Retry.OnTls | rust/redfish-sdk/src/errors.rs:37-48 | A TLS failure is tried again by Rust alone. |
| Retry.OnRefused | python/redfish_sdk/transport/http_client.py:167-181 | A refusal is tried again by all, but by Python only if its text does not look like a TLS failure. |
| Retry.OnConnectTimeout | cpp/src/transport/http_client.cpp:170-171 | A connect timeout is tried again by Rust, by Python with the same exception, and not by C++. |
| Retry.TlsWords | python/redfish_sdk/transport/http_client.py:174-176 | Each of the three words, in any letter case and anywhere in a text, makes it look like a TLS failure. |
| Retry.TlsWordsOnly | python/redfish_sdk/transport/http_client.py:174-176 | And nothing else does. |
| Retry.ReportsDisagree | rust/redfish-sdk/src/transport/http_client.rs:89-104 | One attempt each, a TLS failure: Rust alone reports it as unreachable. |
| Retry.TlsDisagrees | cpp/src/transport/http_client.cpp:231-233 | After one TLS failure Rust tries again, the others do not. |
| Retry.ConnectTimeoutDisagrees | cpp/src/transport/http_client.cpp:170-171 | After one connect timeout C++ alone gives up. |
| TaskPolling.RedfishTask.Update | python/redfish_sdk/protocol/task.py:205-220 | A body changes the state only if it names a known one; an unrecognised state or body leaves it. |
| TaskPolling.BudgetMeaning | python/redfish_sdk/protocol/task.py:152-169 | Exactly ceil(limit / interval) polls start before the limit. |
| TaskPolling.PollsUnique | python/redfish_sdk/protocol/task.py:152-169 | The number of polls is determined by being the first terminal one within the budget, or the whole budget. |
| TaskPolling.StickyState | python/redfish_sdk/protocol/task.py:206-213 | As long as no body names a state that there is, the state stays. |
| TaskPolling.LastNamed | python/redfish_sdk/protocol/task.py:208-213 | Otherwise it is the one that was named last. |
| TaskPolling.EndStates | python/redfish_sdk/protocol/task.py:43-48 | Polling ends in Completed, Killed, Exception and Cancelled and in no other state. |
| TaskPolling.HistoryMeaning | python/redfish_sdk/protocol/task.py:188-191 | The state sequence that monitoring sees is the state after each poll. |
| TaskPolling.Poll | python/redfish_sdk/protocol/task.py:139-174 | Waiting stops at the first poll with a terminal state, fails exactly for Killed and Exception, returns the response of that very poll for Completed and Cancelled, and times out exactly when no poll in the budget was terminal. |
| TaskPolling.Monitor | python/redfish_sdk/protocol/task.py:176-203 | Monitoring notifies the stutter-free version of the state sequence and stops at the same poll as waiting. |
| TaskPolling.UnstutteredClean | python/redfish_sdk/protocol/task.py:193-195 | No two notifications in a row are equal and the last one is the final state. |
| TaskPolling.UnstutteredStretches | python/redfish_sdk/protocol/task.py:193-195 | Nothing but repetition is lost: the state sequence is the notifications, each held for some polls. |
| TaskPolling.WaitAndMonitorAgree | python/redfish_sdk/protocol/task.py:139-203 | For the polls both make: the last starts before the limit, none before it was terminal, and the last notification is the final state. |
| ODataQuery.ReadIntText | python/redfish_sdk/services/log_service.py:370-374 | Decimal text reads back as its number and holds no ampersand. |
| ODataQuery.DecimalWitness | python/redfish_sdk/services/log_service.py:371 | Four numbers in decimal. |
| ODataQuery.BuildFilterParams | python/redfish_sdk/services/log_service.py:360-382 | The Python builder writes offset, limit and effective filter in that order. |
| ODataQuery.BuildQueryString | cpp/src/services/log_service.cpp:104-121 | So does the C++ builder, with its own choice of the filter. |
| ODataQuery.ReadBack | python/redfish_sdk/services/log_service.py:360-382 | A left-to-right reader recovers all three parts from the text, even when the filter contains ampersands. |
| ODataQuery.TextDetermines | cpp/src/services/log_service.cpp:104-121 | Equal texts come from equal offset, limit and effective filter. |
| ODataQuery.BuildersAgree | cpp/src/services/log_service.cpp:113-119 | The builders write the same text exactly when the first filter field present is not empty. |
| ODataQuery.EmptyFilterWitness | python/redfish_sdk/services/log_service.py:376-381 | A query with an empty filter and a severity, and the two texts written for it. |
| ODataQuery.FullText | cpp/src/services/log_service.cpp:111-119 | The text of both builders for an offset, a limit and any filter fields that are not empty: the raw filter counts before the severity, this before the message id. |
| SelRecord.ShiftOrIsSum | cpp/src/models/redfish_types.cpp:66-70 | Or-ing the shifted bytes is the little-endian sum, below 2^32. |
| SelRecord.ParseCpp | cpp/src/models/redfish_types.cpp:22-84 | The C++ decoder: too short, rejected pair, or sixteen bytes with the little-endian timestamp, the record type and the 32 characters read. |
| SelRendering.PythonCleans | python/redfish_sdk/services/log_service.py:83-91 | Behind either prefix or none, Python is left with the characters of a text in upper case, blanks taken out. |
| SelRendering.CppCleans | cpp/src/models/redfish_types.cpp:25-49 | And C++ with the characters as they are. |
| SelRendering.BothDecode | python/redfish_sdk/services/log_service.py:83-152 | Any rendering of sixteen bytes, in either case, with blanks anywhere, behind either prefix and with more bytes behind, decodes to those bytes and one timestamp in both languages; record id, sensor and event fields are the bytes they stand for. |
| SelRendering.AcceptAlike | cpp/src/models/redfish_types.cpp:25-64 | The two accept a text alike exactly when it is too short, its first 32 characters are digits, or C++ rejects one of its first sixteen pairs too; they then read the same bytes and timestamp or give the same reason. |
| SelRendering.HalfDigitsAccepted | cpp/src/models/redfish_types.cpp:58-64 | A text that only C++ accepts. |
| SelRendering.TypesAgree | cpp/src/models/redfish_types.cpp:72-82 | When the reported record types coincide although they are read from different bytes. |
| SelRendering.TypesDiffer | cpp/src/models/redfish_types.cpp:72-82 | A record that is a PXE boot for Python and unknown to C++. |
| SelRendering.PairAccepted | cpp/src/models/redfish_types.cpp:58-64 | Which pairs of characters C++ takes for a byte, against two digits in Python. |
| SelLiterals.HexDigits | python/redfish_sdk/services/log_service.py:98-99 | The sixteen digits in either case, and no other character. |
| SelLiterals.SpaceChars | cpp/src/models/redfish_types.cpp:48-49 | The six white-space characters. |
| SelLiterals.Prefixes | cpp/src/models/redfish_types.cpp:17 | The two prefixes, the second in any letter case. |
| SelLiterals.StripMeaning | python/redfish_sdk/services/log_service.py:83 | Stripping takes white space of every kind off both ends and stops there. |
| SelLiterals.LastPieceMeaning | python/redfish_sdk/services/log_service.py:85-86 | Python goes on with the text behind the last prefix, or with the whole text if there is none. |
| SelLiterals.CppLeavesNoSpace | cpp/src/models/redfish_types.cpp:47-49 | C++ goes on without any white space, whatever the text. |
| SelLiterals.PairBytesOfCpp | cpp/src/models/redfish_types.cpp:58-61 | The byte that C++ makes of two digits, of a digit and something else, and of a sign and a digit. |
| SelLiterals.CrashExactly | python/redfish_sdk/services/log_service.py:102-123 | Python fails with an index error exactly when white space between pairs left fewer than three bytes, or a host event fewer than fourteen. |
| SelLiterals.RecordTypes | python/redfish_sdk/services/log_service.py:111-129 | The record types by number, in both languages. |
| SelLiterals.PxeStart | python/redfish_sdk/services/log_service.py:72-73 | The documented start of a PXE boot, decoded by both: C++ does not know it. |
| Discovery.ParseRoot | rust/redfish-sdk/src/discovery/discovery.rs:105-121 | Whatever order the fields come in, the services are exactly the linked fields whose names start with neither at sign nor underscore, each with the URI of its link, and their names are the capabilities; a body that is no object gives none. |
| Discovery.GetOne | rust/redfish-sdk/src/discovery/discovery.rs:123-145 | The loop over a service's fields keeps every name that is there, and adds exactly its linked fields whose names do not start with an at sign, behind its name and a slash, each with the URI of its link. |
| Discovery.ServiceDiscovery.Full | rust/redfish-sdk/src/discovery/discovery.rs:59-74 | Discovery fails exactly without a root body and then leaves the shared map alone; otherwise it merges all services whichever fetches fail, returns the root's names and body beside them, and adds them to the shared map. |
| Discovery.ServiceDiscovery.UpdateMap | rust/redfish-sdk/src/discovery/discovery.rs:147-153 | The shared map is overridden by what was found, in whatever order, unless its lock is poisoned. |
| Discovery.MergeAllLookup | rust/redfish-sdk/src/discovery/discovery.rs:67-70 | The merged map gives what the root says, and otherwise what the first service to bring the name says. |
| Discovery.BringsMeaning | rust/redfish-sdk/src/discovery/discovery.rs:135-139 | What a service brings is its own links. |
| Discovery.DiscoveredExactly | rust/redfish-sdk/src/discovery/discovery.rs:59-74 | The names of a full discovery are those of the root and those that some service of the root brings, fetched from the URI the root gives; each has the URI of one of these. |
| Discovery.RootKept | rust/redfish-sdk/src/discovery/discovery.rs:139 | A URI found in the root is never overwritten. |
| Discovery.OrderIrrelevant | rust/redfish-sdk/src/discovery/discovery.rs:63-70 | Without a conflict, all orders of services and of their fields give the same map. |
| Discovery.ConflictShows | rust/redfish-sdk/src/discovery/discovery.rs:63-70 | With a conflict, two orders give different maps: the condition is exact. |
| Discovery.SimpleNamesNoConflict | rust/redfish-sdk/src/discovery/discovery.rs:138 | Top-level names without a slash cannot conflict. |
| Discovery.SlashCanConflict | rust/redfish-sdk/src/discovery/discovery.rs:138 | Names with a slash can: a concrete root and server. |

## Left out

What the models abstract from:

- Sockets, TLS, HTTP libraries, clocks, sleeping and logging: an attempt, a page or a poll is an entry of an arbitrary script, and a server is a function from URI to answer.
- JSON parsing and the decoding of server-sent-event blocks, event fields and task messages: the models start from decoded values; the block parser is a parameter of the splitter. Values on which the decoders themselves raise (a percentage or message of the wrong kind, a non-string link) are not modelled.
- Parsing the Content-Length number and the request line: `ReadRequest` takes what they say as a function of the header. The checks behind the body (context token, JSON errors) show only as a connection without records.
- The concurrent and resource protocols (`ConcurrentListener`, `ListenerLifecycle`, `PageBridge`) are step relations on values, not classes: the methods of `EventRecorder` cover the update in place of one thread.
- Move construction and assignment of the listener, and handlers that outlive it; callbacks that throw; registration of callbacks during a run: the callback tables are fixed.
- Failure to create a connection thread, which ends the process.
- What a callback does: a call is an entry, of callback and event, in a log.
- The order in which Python's scheduled callbacks run: they are gathered concurrently; the model has the order in which they are scheduled.
- Default intervals and limits, URI assembly and authentication headers.
- Signed left shift past 31 bits in `base64_encode`, undefined before C++20: modelled as wrapping.
- Unicode and C-locale letter case and white space beyond ASCII in prefixes and messages.
- Cyclic page links without a page limit or a callback that stops, on which neither loop ends: `Collect` and `IterEntries` assume one or the other, `PageIterator.Next` nothing.
- Task waiting in C++ and Rust: wall-clock deadlines give no exact number of polls.
- Everything that only builds a URI and forwards a call, the authentication life cycle, capability flags and response building.

Contracts stated with a restriction:

- Retry.CppRequest: assumes the retry count below the largest 32-bit int, because the source adds 1 to it in an int, which would overflow. All three clients take the count from a value clamped at 0 or unsigned, so it is a natural number here.
- Retry.PythonRequest: classifies a connection error by its text; that an error whose cause is an SSL exception is also handed through is part of the outcome `Tls`.
- TaskPolling.Poll: time is counted in integer ticks with a positive interval; the rounding of the float accumulation is not modelled.
- TaskPolling.Monitor: the same ticks, and the state at a poll is what the notification callback sees.
- SelRendering.BothDecode: leaves out the descriptive text that Python puts beside the decoded fields.
- SelRendering.AcceptAlike: speaks about texts whose only white space is blanks and which hold at most the one prefix at their start; the two cleanings differ on other white space and on white space before a prefix.
- Discovery.ServiceDiscovery.Full: the list of capabilities comes in no particular order in the source, so it is a set here.
