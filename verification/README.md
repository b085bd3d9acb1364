# fastapi-turbo core: models and proofs

A Dafny model of the Rust core of fastapi-turbo, an HTTP and WebSocket server for FastAPI
applications, with proofs of the properties its comments and documentation rely on.

Two kinds of code are modelled in two ways.

* Protocols between tasks and threads are state machines: a state, an action for every
  scheduling choice, and a step function. `Runs.Exec` runs a sequence of actions, and every
  theorem speaks of all sequences, so of all interleavings. The WebSocket receive, send,
  flush, shutdown and accept paths, the cluster's load accounting and drain, and the
  streaming drivers are done this way.
* Sequential code is written as methods and classes with the loops of the source, each
  proved against a specification, and the specification is then related to something
  independent of it: a decoder, a calendar, a set of byte positions, the fate of a generator.

| file | what it models |
|---|---|
| `WsReceive`, `WsOutbound`, `WsFlush`, `WsShutdown`, `WsAccept` | the WebSocket actor, `src/websocket.rs` |
| `ClusterLoad`, `ClusterDrain`, `ClusterPick` | acceptor and workers, `src/cluster.rs` |
| `StreamDrivers`, `Coalescer`, `StreamBody` | streaming bodies, `src/streaming.rs` |
| `Ranges`, `RangeHeader`, `ByteRangesBody` | `Range` headers and multi-range bodies, `src/responses.rs` |
| `CivilDate` | HTTP dates, `src/responses.rs` |
| `Json`, `JsonWriter` | the direct JSON writer, `src/responses.rs` |
| `Multipart`, `MultipartForms` | form parsing, `src/multipart.rs` |
| `YieldDeps` | dependencies with `yield`, `src/router.rs` |
| `StaticCache` | the static file cache, `src/server.rs` |
| `Runs`, `Decimal`, `Text`, `Bytes` | shared definitions |

## Properties that fail, and exactly when

* A `Range` sub-range that ends one byte before it starts (`5-4`) is accepted and delivered
  as an empty part (`RangeHeader.EmptyPartDelivered`). Every part has a byte in it if and
  only if each such range touches a non-empty one that was asked for as well
  (`RangeHeader.PartsNonEmptyIff`).
* The same bytes asked for in two ways can be answered differently, when such an empty range
  stands alone in one of them (`RangeHeader.SameBytesOtherAnswer`); answers agree if and only
  if bytes and lone empty ranges do (`RangeHeader.SameAnswerIff`).
* When a function-scope dependency raises after its yield, the function-scope dependencies
  entered before it are never torn down (`YieldDeps.ForgottenExample`).
  `YieldDeps.SuccessFates` gives the fate of every generator: it stays suspended if and only
  if it is one of those.
* `pick` can find no worker although some are connected, when completions are counted off
  between its two readings (`ClusterPick.EmptyHandedExample`, `ClusterPick.EmptyHandedIff`);
  its documentation promises `None` only without workers.
* A multipart header that names the file before the field is read with the file's name as
  the field's name (`MultipartForms.FilenameFirst`), so it is right if and only if the two
  are equal (`MultipartForms.FilenameFirstIff`); with the name first it is read as meant
  (`MultipartForms.FormsReadBack`).
* A field whose name contains `filename=` can be taken for a file
  (`MultipartForms.TakenForFile`). A plain field is read as one if and only if its name does
  not contain that text or first contains it at its very end (`MultipartForms.PlainFieldIff`);
  `MultipartForms.DispositionRead` gives the file name read in every case.

## Where comments and code disagree

The model follows the code. The comment on the static cache says the file is checked on
every request; the code checks it once a second. A suffix range longer than the file is
answered with 416, where section 2.1 of RFC 7233 would send the whole file.

## Model

| member | source | states |
|---|---|---|
| WsReceive.FramesInOrder | src/websocket.rs:454-556 | in every interleaving, cancelled receives included, frames returned, held, batched and queued are together exactly what the peer sent, in order |
| WsReceive.NoLostWakeup | src/websocket.rs:476-510 | a handler suspended on a future while a frame or the end of the stream is there: the reader is inside the very wake that resolves that future, or has resolved it, whatever stale future a cancelled receive left armed before |
| WsReceive.WakeArrives | src/websocket.rs:265-286 | from every such state a few steps of reader and event loop alone resume the handler |
| WsOutbound.WrittenInOrder | src/websocket.rs:808-967 | in every interleaving of direct and queued sends, what the sink accepted is a prefix of what the handler sent |
| WsOutbound.ZeroUnderLock | src/websocket.rs:816-869 | the queue counter never underflows, and zero seen under the sink lock means nothing is queued, with a waiter or mid-write |
| WsOutbound.QuietMeansAllWritten | src/websocket.rs:878-967 | with a sound sink, a handler at rest and nothing queued, everything sent has been written |
| WsOutbound.RunKeepsCloseLast | src/websocket.rs:878-967 | in every run a close is the last frame sent, and the handler is not idle after it |
| WsOutbound.SendsArrive | src/websocket.rs:808-967 | with a sound sink and nobody ending the connection, whatever order the send under way, the select task, the waiter and the flusher move in, they take a bounded number of steps and can go on until every frame sent is written |
| WsFlush.NoReplyStranded | src/websocket.rs:843-927 | in every interleaving a reply still in the sink's buffer is covered by a pending timer with a count above zero, a scheduled flush, or an operation under way |
| WsFlush.CountBounded | src/websocket.rs:482-485 | a handler parked in receive has nothing counted, and the count never exceeds 32 * 1024 + 8 |
| WsFlush.FlushArrives | src/websocket.rs:153-194 | with the handler at rest, background steps alone put every buffered reply on the wire |
| WsShutdown.AckMeansWritten | src/websocket.rs:976-1036 | an answered flush request means the loop is over and, unless it ended other than by writing the Close, every frame sent had been written; a direct frame swallowed by a broken sink does not pass for written |
| WsShutdown.NoAckLost | src/websocket.rs:1685-1692 | once the select task is gone no flush request is unanswered, except one still in the hands of the handler or its waiter |
| WsShutdown.AckArrives | src/websocket.rs:1256-1280 | in `close_and_wait`, whatever order the select task and the waiter move in and whatever the sink answers, they take a bounded number of steps and can go on until the handler is answered |
| WsAccept.AcceptResolved | src/websocket.rs:1052-1101 | on every exit of the upgrade path, a timeout racing a late accept included, a future returned by `accept()` is resolved, and until then the guard that will resolve it exists |
| ClusterLoad.LoadConserved | src/cluster.rs:296-304 | for each connected worker the counter equals the connections being dispatched, travelling, served and reported, so no decrement is swallowed and it never underflows |
| ClusterDrain.NoMissedDrain | src/cluster.rs:227-243 | a drain waiting with nothing in flight has its notification or the last task is about to send it |
| ClusterDrain.FullDrainAnswersAll | src/cluster.rs:244-254 | a full drain without socket errors has written one completion byte for every descriptor received |
| ClusterDrain.DrainArrives | src/cluster.rs:227-254 | without a deadline or a socket error, whatever order the drain, the connection tasks and the completer move in, they take a bounded number of steps and can go on until the drain reports that all connections are finished |
| ClusterPick.LeastLoad | src/cluster.rs:330-334 | the smallest of the counters read |
| ClusterPick.FindFrom | src/cluster.rs:336-343 | the first worker from the cursor on, round the list, whose counter equals the minimum |
| ClusterPick.Scan | src/cluster.rs:324-344 | the two readings of `pick`: none is found if and only if the minimum of the first is absent from the second |
| ClusterPick.Workers.constructor | src/cluster.rs:266-282 | no workers, cursor at zero |
| ClusterPick.Workers.Add | src/cluster.rs:312-314 | the new worker joins at the end with nothing outstanding |
| ClusterPick.Workers.Pick | src/cluster.rs:324-344 | as one step: nobody is picked exactly without workers; otherwise the least-loaded worker first from the cursor, now one busier, and the cursor moves on |
| ClusterPick.Choice | src/cluster.rs:335-343 | the worker chosen has the least load, and is the one at the cursor if that one has |
| ClusterPick.EmptyHandedIff | src/cluster.rs:330-344 | when counters only fall between the readings, nobody is picked if and only if every worker at the minimum finished a connection and no busier one came down to exactly that minimum; without completions there is always a choice |
| ClusterPick.EmptyHandedExample | src/cluster.rs:298-304 | one worker whose only connection ends between the readings is not picked |
| ClusterPick.SpreadKept | src/cluster.rs:316-323 | no run of picks without completions widens a spread of one or more |
| ClusterPick.EachWorkerOnce | src/cluster.rs:316-323 | from equal loads, as many picks as workers take each worker exactly once |
| ClusterPick.Rotation | src/cluster.rs:335-337 | from equal loads, pick number k takes the worker k places after the cursor |
| ClusterPick.RoundRobin | src/cluster.rs:316-323 | from equal loads, no worker recurs within any stretch of as many picks as workers |
| StreamDrivers.ChunksInOrder | src/streaming.rs:246-347 | for every cut by capacity or budget and every consumer schedule, delivered chunks are a prefix of the generator's; until the consumer drops, the rest is in the channel but for at most one |
| StreamDrivers.EndMeansAll | src/streaming.rs:1262-1279 | a consumer that reads to the end has every chunk; an exception is captured before the channel closes; the generator is closed early only after a disconnect |
| StreamDrivers.EndArrives | src/streaming.rs:1081-1135 | from every state of every run the stream can be finished: no chunk, waiter or driver gets stuck, whether or not the consumer has gone |
| StreamDrivers.InlineDrain | src/streaming.rs:246-347 | the inline loop is a run of the protocol: it stops full, late or at the generator's end with exactly the chunks yielded so far in the channel |
| StreamDrivers.OfferKeepsFlow | src/streaming.rs:1086-1131 | a chunk offered to a full or free channel, or to a blocking thread, stays next in line |
| Coalescer.Receiver.constructor | src/streaming.rs:378-386 | nothing queued, pushed or answered |
| Coalescer.Receiver.Arrive | src/streaming.rs:364-372 | what the producer pushes joins the queue and the history; a closed channel takes nothing |
| Coalescer.JoinedSaysSame | src/streaming.rs:419-421 | chunks joined into one say what they said apart |
| Coalescer.Receiver.TryRecv | src/streaming.rs:418-436 | a queued chunk moves to the batch, a queued error is kept for the next poll at its place, and nothing else leaves the queue |
| Coalescer.Receiver.AnswerPending | src/streaming.rs:398-400 | an error held back is the next answer |
| Coalescer.Receiver.AnswerHead | src/streaming.rs:407-407 | an error at the head of the queue is the answer |
| Coalescer.Receiver.AnswerBatch | src/streaming.rs:408-441 | a data answer is the batch, and stands for exactly the chunks it is made of |
| Coalescer.Receiver.Batch | src/streaming.rs:413-437 | the history grows by exactly what the producer pushed meanwhile; the first chunk and the chunks taken after it are, in order, the batch, which is under 16 KiB without the last of them; it stops only at an empty queue, an error or the limit |
| Coalescer.Receiver.PollNext | src/streaming.rs:391-442 | what was pushed is always what was answered, held back and still queued, in order; each answer says exactly the items taken for it, a batch without its last chunk being under 16 KiB; it waits, or ends, if and only if nothing is left and the channel is open, or closed |
| StreamBody.StepPushes | src/streaming.rs:1081-1135 | a step of the driver only adds to what was pushed, one chunk at most, and nothing once the channel is closed |
| StreamBody.PushesAreYields | src/streaming.rs:246-347 | what is pushed is a prefix of the generator's chunks, and all of them once no sender is left |
| StreamBody.RunArrives | src/streaming.rs:364-372 | a receiver told the moves of any run has been pushed what the driver pushed, and its channel is closed exactly when no sender is left |
| StreamBody.EndToEnd | src/streaming.rs:246-443 | in every run of driver and receiver, the bytes answered are a prefix of the generator's chunks put together, and all of them when the end is answered |
| StreamBody.PollOnce | src/streaming.rs:391-442 | a poll has an answer if and only if something is queued or held back, and each answer takes something |
| StreamBody.PollAll | src/streaming.rs:391-442 | polling comes to an end with nothing queued or held back |
| StreamBody.Turn | src/streaming.rs:391-442 | a move and the poll after it: one more answer, or nothing left to answer |
| StreamBody.Serve | src/streaming.rs:364-443 | a new receiver that learns of the moves of any run, polled at any time in between and at last for as long as it has an answer, has answered exactly what the driver pushed, and reports the end if and only if no sender is left |
| Ranges.SortSorted | src/responses.rs:1228-1228 | sorted, and the same ranges |
| Ranges.MergeCoalesced | src/responses.rs:1229-1238 | sorted ranges coalesce to strictly separated ones over the same byte positions, each input range inside one of them |
| Ranges.Coalesce | src/responses.rs:1229-1238 | the loop computes that form |
| Ranges.NormalFormUnique | src/responses.rs:1226-1238 | a set of bytes has one separated form without empty ranges |
| Ranges.SeparatedFormUnique | src/responses.rs:1226-1238 | a separated form, empty ranges included, is determined by its bytes and the positions it reaches |
| RangeHeader.SubRange | src/responses.rs:1167-1202 | an accepted sub-range of a non-empty file ends at byte 1 at the earliest and at the file's end at the latest, so the later `e - 1` never underflows |
| RangeHeader.ReadPieces | src/responses.rs:1170-1202 | the loop over sub-ranges keeps, in order, those that can be read |
| RangeHeader.DecideRanges | src/responses.rs:1204-1248 | the checks in their order, then the coalesced ranges |
| RangeHeader.ParseByteRanges | src/responses.rs:1148-1249 | the loops compute the decision about which the lemmas below speak |
| RangeHeader.SendsWhatWasAsked | src/responses.rs:1148-1249 | whatever header is answered with ranges, its parts cover exactly the byte positions it asks for, in order, within the file, with gaps between them |
| RangeHeader.NeverMoreThanTheFile | src/responses.rs:1144-1249 | whatever the header, the parts are together no longer than the file |
| RangeHeader.PartsNonEmptyIff | src/responses.rs:1148-1249 | for every header that is answered, no part is empty if and only if every empty range asked for touches a non-empty one |
| RangeHeader.EmptyPartDelivered | src/responses.rs:1221-1223 | a range ending one byte before its start is delivered as an empty part |
| RangeHeader.SameAnswerIff | src/responses.rs:1148-1249 | two headers that are answered get the same answer if and only if they ask for the same bytes and for empty ranges standing alone at the same places |
| RangeHeader.SameBytesOtherAnswer | src/responses.rs:1221-1248 | two headers can ask for the same bytes and get different answers, when one has a lone empty range |
| RangeHeader.ParsesTheGrammar | src/responses.rs:1151-1202 | a header printed from byte-range specifiers is read back as the ranges they mean |
| RangeHeader.GrammarVerdict | src/responses.rs:1204-1223 | 416 if and only if some specifier starts outside the file; 400 if and only if none does and one ends more than a byte before its start |
| ByteRangesBody.Plan | src/responses.rs:1573-1587 | the preambles, and a Content-Length equal to the length of the body for every file the ranges fit |
| ByteRangesBody.SendSlice | src/responses.rs:1611-1631 | the chunks of one range, none over 64 KiB, join to the file's slice; it fails exactly when the file is too short |
| ByteRangesBody.Produce | src/responses.rs:1595-1635 | the frames join to the whole body; it fails exactly when the file no longer holds the ranges |
| ByteRangesBody.ReadsBack | src/responses.rs:1575-1585 | a reader of multipart/byteranges takes back every range, the total and exactly the file's bytes |
| ByteRangesBody.AnswerFits | src/responses.rs:1240-1243 | the ranges a header is answered with fit the file they were computed for |
| CivilDate.EraOf | src/responses.rs:1424-1428 | truncating division with its correction is flooring division |
| CivilDate.DateIsExact | src/responses.rs:1422-1438 | every day count, before or after 1970, yields a real date, the one that many days from 1970-01-01 |
| CivilDate.DateInverts | src/responses.rs:1422-1438 | the code inverts the Gregorian day count on every date |
| CivilDate.Epoch | src/responses.rs:1422-1438 | day 0 is 1970-01-01 |
| CivilDate.DatesSucceed | src/responses.rs:1422-1438 | the day after a date's day is the calendar's next date |
| CivilDate.HttpDateRoundTrip | src/responses.rs:1399-1418 | an independent reader of HTTP dates, which also checks the weekday, gets back the exact second for every second since 1970 |
| CivilDate.HttpDateLength | src/responses.rs:1399-1418 | until the year 9999 the text is the 29 characters of IMF-fixdate |
| JsonWriter.EscapeTo | src/responses.rs:981-996 | appends the escaped text, character by character |
| JsonWriter.WriteString | src/responses.rs:823-828 | appends the quoted text |
| JsonWriter.WriteItems | src/responses.rs:721-751 | appends a list, tuple or set as an array |
| JsonWriter.WriteDict | src/responses.rs:697-718 | appends a dictionary as an object, its keys as strings |
| JsonWriter.WriteAny | src/responses.rs:734-868 | appends the text of any modelled value |
| JsonWriter.Write | src/responses.rs:687-691 | the whole text reads, by RFC 8259, as exactly the value meant |
| JsonWriter.ReadsBack | src/responses.rs:734-868 | for every nested value, reading what was written yields its meaning and leaves exactly what follows |
| JsonWriter.CharBack | src/responses.rs:983-994 | every escape is undone by reading |
| JsonWriter.OneLine | src/responses.rs:979-994 | no text written contains a control character |
| Bytes.FindFirst | src/multipart.rs:161-169 | what is found is the first occurrence; nothing is found only where there is none |
| Multipart.SplitCrlf | src/multipart.rs:171-188 | the lines between CRLFs |
| Multipart.ReadHeaders | src/multipart.rs:95-111 | the header lines taken into account in order |
| Multipart.OpenPart | src/multipart.rs:68-93 | end marker, error or part, at a boundary |
| Multipart.ParseMultipart | src/multipart.rs:46-150 | terminates within bounds on every input, with the boundary at `pos` on every turn, and computes the result the lemmas below speak of |
| Multipart.BoundaryKept | src/multipart.rs:146-148 | a turn that goes on leaves `pos` at a boundary, on any body |
| Multipart.PartFiled | src/multipart.rs:113-147 | a part that is accepted is the piece of the body up to the first delimiter after it, is filed last under its name, and leaves both counts within their caps |
| Multipart.AnyBody | src/multipart.rs:46-150 | whatever the body, what is parsed from it is pieces of it that end at a delimiter, listed under their names in order, at most 1000 files and 1000 other fields |
| MultipartForms.FormsReadBack | src/multipart.rs:46-150 | what a client encodes from well-formed forms is parsed if and only if neither cap is exceeded, and then every name lists its forms in order, with file name and data unchanged and the type without surrounding blanks |
| MultipartForms.RoundTrip | src/multipart.rs:64-149 | parsing an encoded body is collecting its forms one after the other |
| MultipartForms.NotInData | src/multipart.rs:129-137 | with a boundary free of carriage returns it is enough that the data does not contain the delimiter |
| MultipartForms.DispositionRead | src/multipart.rs:190-203 | with the name first, the name is read back as written; the file name too, unless the field name contains `filename=`, and what is read then |
| MultipartForms.PlainFieldIff | src/multipart.rs:190-203 | no file name is read for a plain field if and only if its name does not contain `filename=`, or first contains it at its very end |
| MultipartForms.TakenForFile | src/multipart.rs:190-203 | a plain field named `filename=` and anything more is read as a file |
| MultipartForms.FilenameFirst | src/multipart.rs:190-203 | with the file name first, the field's name is read from the file name |
| MultipartForms.FilenameFirstIff | src/multipart.rs:190-203 | with the file name first, the field's name is read right if and only if it equals the file name |
| YieldDeps.Request.constructor | src/router.rs:3362-3375 | nothing resolved, entered or torn down |
| YieldDeps.Request.CallDependency | src/router.rs:3685-3708 | a generator that yields is put on record once; one that ends at once or fails is not |
| YieldDeps.Request.Resolve | src/router.rs:3379-3447 | a dependency with a failed input is skipped, a callable that has a value is reused, any other is called once and remembered |
| YieldDeps.Request.TakeInput | src/router.rs:3455-3518 | an input aborts the request, is recorded as failed, or has a value; no generator is entered |
| YieldDeps.Request.TakeDependency | src/router.rs:3380-3454 | a dependency is called exactly when its inputs did not fail and its callable has no value yet, and ends the loop exactly when the call fails |
| YieldDeps.Request.ResolveAll | src/router.rs:3376-3519 | up to the parameter that ends the loop, the generators entered are, in order, exactly those of the dependencies called: inputs not failed, callable not run before; no callable is entered twice |
| YieldDeps.Request.CloseAll | src/router.rs:3714-3724 | every generator closed, last entered first |
| YieldDeps.Request.ExitFunctionScope | src/router.rs:3730-3747 | function-scope generators advanced, last entered first, up to the first that raises |
| YieldDeps.Request.ExitOne | src/router.rs:3758-3777 | one generator closed, or advanced and closed if it yields again; an exception after the yield is captured |
| YieldDeps.Request.ExitRequestScope | src/router.rs:3753-3779 | request-scope generators left, last entered first, errors notwithstanding; the exceptions captured are those raised after a yield, in that order |
| YieldDeps.Request.HandOverRequestScope | src/router.rs:3783-3810 | request-scope generators handed to the stream in order of entry |
| YieldDeps.Request.ThrowInto | src/router.rs:3857-3887 | one generator sees the live exception, or is advanced once it has been swallowed |
| YieldDeps.Request.ThrowAll | src/router.rs:3850-3898 | the exception passes through all generators, last entered first, as each leaves it |
| YieldDeps.Request.Succeed | src/router.rs:3608-3655 | the order of scopes, the hand-over, the errors captured, and the answer after a handler returned |
| YieldDeps.Request.Handle | src/router.rs:3362-3673 | on every return path each generator that a called dependency entered meets its fate: ended exactly once, handed over, or left suspended only after a function-scope error; rejected if and only if a parameter or the arguments prevent the call |
| YieldDeps.CloseEndsAll | src/router.rs:3714-3724 | closing ends each generator exactly once |
| YieldDeps.ThrowEndsAll | src/router.rs:3850-3887 | after a handler error each generator is ended exactly once, whoever swallows or replaces the exception |
| YieldDeps.SuccessFates | src/router.rs:3730-3810 | on success each generator is ended once or handed over, except exactly the function-scope ones entered before one that raises after its yield |
| YieldDeps.RejectedFates | src/router.rs:3714-3724 | a rejected request ends every generator once |
| YieldDeps.ThrownFates | src/router.rs:3850-3898 | a failed handler ends every generator once |
| YieldDeps.SucceededFates | src/router.rs:3608-3655 | once the handler returned, each generator is ended once, handed over if the answer is deferred and its scope is the request, or left suspended if a function-scope error passed it by |
| YieldDeps.ForgottenExample | src/router.rs:3743-3744 | two function-scope generators, the later raising: the earlier stays suspended |
| YieldDeps.CloseDescends | src/router.rs:3715-3715 | closing goes in reverse order of entry |
| YieldDeps.ThrowDescends | src/router.rs:3856-3856 | throwing goes in reverse order of entry |
| YieldDeps.SuccessOrder | src/router.rs:3608-3655 | on success, reverse order of entry within each scope, and function scope before request scope |
| YieldDeps.SwallowedIff | src/router.rs:3859-3898 | a handler error ends as FastAPIError if and only if some generator it reached swallowed it |
| StaticCache.Server.constructor | src/server.rs:38-42 | an empty cache, and a history that begins with the disk as it is |
| StaticCache.Server.Change | src/server.rs:14-19 | edits, deletions and time add one moment to the history and leave the cache sound |
| StaticCache.Server.Lookup | src/server.rs:150-203 | an entry checked within the second is used as it is; an older one if and only if the mtime agrees, and then, and only then, it counts as checked now |
| StaticCache.Server.Load | src/server.rs:206-240 | a small readable file, and no other, is read in with its mtime |
| StaticCache.Server.Fetch | src/server.rs:150-240 | from the cache if an entry may be used, else from the disk if the file is small and readable, else not at all |
| StaticCache.Server.Call | src/server.rs:128-252 | a request is served if and only if it concerns the cache and an entry may be used or the file is small and readable; every body served stood on the disk less than a second ago, over every run of edits and requests; ranges, other methods and paths with `..` never touch the cache |

## Left out

- Memory order: atomics are sequentially consistent, and reserving a channel slot and sending on it is one step. A permit outstanding when the receiver closes is therefore not modelled.
- Python: the interpreter lock, asyncio, and the helpers written in Python are abstract steps with the behaviour their comments state.
- Several tasks on one socket: one task sends and one receives, and nothing is sent after a close, as the Python wrapper enforces.
- WsShutdown.NoAckLost: flush requests made before the upgrade callback runs are covered only once the select task has started.
- StreamDrivers.ChunksInOrder: `__anext__` coroutines that suspend on the path proved free of awaits, the trampoline and the choice between drivers are not modelled; a driver that fails to start is not either.
- Coalescer.Receiver.PollNext: the waker registered by an empty poll is not modelled, and the producer's moves fall before each `try_recv`.
- StreamBody.EndToEnd: a consumer that goes away is left to StreamDrivers.ChunksInOrder.
- ClusterPick.Workers.Pick: is one step; ClusterPick.Scan is the same code with completions in between.
- ClusterPick.Rotation: stated while the 64-bit cursor does not wrap around; at the wrap the order jumps, as 2^64 need not be a multiple of the number of workers. The same holds for ClusterPick.RoundRobin; ClusterPick.EachWorkerOnce and ClusterPick.SpreadKept hold across it.
- ByteRangesBody.Produce: a client that goes away in mid-body is not modelled; bytes are characters. The length of an empty part is 0, as wrapping subtraction gives it.
- CivilDate.DateIsExact: does not model overflow of 64-bit day counts, which no file time reaches.
- JsonWriter.WriteAny: floats, decimals, dates, models and objects with attributes are not modelled; bytes, UUIDs and dates share the path of strings. Strings with lone surrogates, which are written as empty, are outside Dafny's strings.
- MultipartForms.FormsReadBack: the conditions on names, file names, types and data are sufficient; only the one on `filename=` inside a name is shown to be exact. Header lines other than the two the parser uses are not encoded.
- Multipart.ParseMultipart: errors are named, not spelled out.
- YieldDeps.Request.Handle: extraction and validation of parameters are outcomes given from outside; a `close()` that the generator resists is not modelled. Skipping after a failed input is not transitive in the code, and not claimed.
- StaticCache.Server.Call: calls are one step each, mtimes identify contents, and content types are left out; a full path is the root, a slash and the relative path.
- Routing, CORS, compression, TLS, signals, descriptor passing, slash redirects, upload file objects, ETags, MD5 and the classification of async code are left out.
