# The data path of the Elastic APM Go agent

This project models how the agent (module `go.elastic.co/apm/v2`) turns spans, transactions,
errors and metrics into the bytes of a request, and proves what that path keeps. Code that
updates objects is modelled by classes whose methods update the same fields; each method is
proved against a specification on values, and the main laws are lemmas about these values,
for all inputs, all states and all runs.

| file | models |
|---|---|
| RingBuffer.dfy | the byte ring that buffers encoded events, as a bounded queue of tagged blocks |
| IoChan.dfy | the reader through which the transport pulls a request's body, as a protocol of two parties |
| EventHistory.dfy, FlushHistory.dfy, TracerLoop.dfy, TracerRuns.dfy | the tracer's event loop: buffering, streaming, results, flushes; and whole runs of it |
| SpanCompression.dfy, DroppedSpansStats.dfy, SpanLife.dfy, SpanLaws.dfy, Spans.dfy | spans from start to end: caches, composites, dropping, counters; a state machine, its laws, and the classes that refine it |
| ChildrenTimer.dfy, BreakdownCalls.dfy, Breakdown.dfy | self-times; the calls that record them, as a machine on sets of keys; and the hash index that follows it under every interleaving of threads |
| Wildcard.dfy | the wildcard matcher against the language of its pattern |
| ConfigOverlay.dfy | central configuration over local configuration |
| ErrorTree.dfy | cause graphs cut to trees, and the stack frames that two traversals share |
| MetricSets.dfy | metric sets sorted by label |
| Traceparent.dfy, Tracestate.dfy | the two headers of W3C Trace Context |
| Runes.dfy, FullURL.dfy | truncation by runes (RFC 3629, section 4), and the full URL truncated as it is written |
| SqlScanner.dfy | the SQL scanner |
| Basics.dfy | what several modules share |

How the parts are read:

- **Spans.** The classes `Span` and `Transaction` carry the source's fields; a ghost field holds
  the state of the machine in `SpanLife`, and each method is proved to do what the machine's step
  does. The locks make each Start and End one step. A caller must not use a span again once
  it was ended, as the source's documentation asks; a second End of a span that is gone is
  harmless and is covered. Children may be started at any time, under any parent, with an
  explicit context or without; where the laws depend on it, they say so.
- **The loop.** The cases of the select statement are methods, taken in any order, each with the
  rest of its iteration. zlib is any encoder whose output only grows with what it is given
  and whose Close emits at least one byte. Both rings appear as the queues that `RingBuffer`
  proves them to be.
- **Breakdown metrics.** Each step between two lock operations, and each atomic addition, is one
  method, for any number of threads and any hash function.

## Where the code departs from what one would expect

Each of these is stated by a member of the project, with the exact condition where there is one.

- A recorded span can be lost: a child that its parent holds in its cache is disposed of if and
  only if some step flushes it (`SpanLaws.LostExactlyWhen`), which is the parent's own End, or that
  of another child before the parent's data is gone. The parent's End does not flush it if the
  parent was itself dropped at the limit on spans (`SpanLaws.DroppedParentLosesChild`) or is
  returned early as a mismatched child of an exit span (`SpanLaws.FlushedExactlyWhen`). Any other
  parent loses a child if and only if the child's own End came when the parent had ended and was
  cached or absorbed, and nothing flushed it since (`SpanLaws.LostToOrdinaryExactly`). That happens
  to children started under an explicit trace context (`SpanLaws.IrregularChildLeftBehind`), or in the
  ordinary way after their parent's End (`SpanLaws.LateChildLeftBehind`); a child started in the
  ordinary way under a running parent keeps it from ever being cached or absorbed
  (`SpanLaws.OrdinaryChildSaves`).
- A Flush is notified once if it finds nothing to send, and once if a result comes before the
  next Flush: so exactly once if and only if just one of these holds, and else twice or never
  (`FlushHistory.NotifiedOnce`, `TracerLoop.FlushNotifiedTwice`, `TracerLoop.FlushOvertaken`). If a
  caller whose Flush found nothing to send has given up without receiving, the next result makes
  the loop wait for ever, for there is room for one notification (`FlushHistory.BlocksExactly`).
- Flush is documented to wait until what is queued was flushed to the server (tracer.go:587-589). After
  it both rings are empty, unless the request was closed off before or its output has reached the
  limit (`TracerLoop.Loop.OnForceFlush`); then the result of that request notifies the caller all
  the same, with its events unsent (`TracerLoop.FlushReturnsEarly`). The second of two Flushes in a
  row does so (`TracerLoop.SecondFlushReturnsEarly`).
- An event larger than the ring is counted in no statistic (`TracerLoop.Loop.WriteEvent`).
- With a failing writer the ring's length and position no longer stand for its contents
  (`RingBuffer.Buffer.WriteBlockTo`); nor do they after a block of 2^32 bytes or more
  (`RingBuffer.Buffer.WriteBlock`). The agent's writers do not fail and its rings are smaller.
- When the breakdown index is full, a new key whose hash bucket exists runs off the array
  (`Breakdown.BreakdownMetrics.Insert`). Whatever the hash function, transactions alone lead there,
  as a key's fields are hashed with nothing between them: 1000 of different names, one of them of
  type "ab" and name "c", and then one of type "a" and name "bc" (`Breakdown.TransactionsPanic`).
- The children timer adds up its active periods, each from the report that opens it to the report
  that closes it. Where these are in order and cover the children, the sum is the length of the
  union of the children's intervals if and only if there is no gap (`Children.SumMeasures`). Out
  of order, reports may open or close a period too late or too early
  (`ChildrenTimer.OutOfOrderReports`).
- A child of an exit span with another type is returned early from End, before the report that it
  has ended: to its parent's timer it runs to the parent's end, so the parent loses all of its
  self-time from the child's start on (`ChildrenTimer.MismatchedChild`).
- The wildcard matcher accepts more than its pattern where the last part may overlap the one
  before it (`Wildcard.ExactlyWhen`).
- Some local setters register under another setting's key. Setting a field then keeps central
  configuration over local if and only if that key is centrally configured just when the field is,
  or the value is the one in effect (`ConfigOverlay.SetUnderKey`): else it overrides a remote value
  (`ConfigOverlay.WrongKeyOverridesRemote`), or is ignored though nothing remote is configured for the
  field (`ConfigOverlay.WrongKeyIgnored`), as SetCaptureHeaders is while the maximum of spans is.
- A key given in another case than before, as `Recording` after `recording`
  (`ConfigOverlay.SameVariable`), is set and then reverted
  (`ConfigOverlay.SameVariableInAnotherCase`).
- A watcher that closes its channel leaves what it configured in force: dropping or replacing it
  afterwards reverts nothing, against the documentation of SetConfigWatcher (tracer.go:724-726)
  (`ConfigOverlay.ClosedWatchKeepsRemote`; the exact condition is that of
  `ConfigOverlay.Tracer.OnWatcher`).
- Several tracestate header values are not always treated like one joined value: a blank value, or
  one that ends with a comma, is accepted on its own and refused when joined (`TracestateText.Joined`).

## Model

| member | source | states |
|---|---|---|
| RingBuffer.EvictCountIsLeast | internal/ringbuffer/buffer.go:121-124 | the number of blocks that go is the least that leaves room: keeping the blocks from the i-th on leaves room for the new one exactly if i is at least that number |
| RingBuffer.PushedFits | internal/ringbuffer/buffer.go:116-142 | a write never makes the contents exceed the capacity, and forgets nothing if there was room |
| RingBuffer.LE32RoundTrip | internal/ringbuffer/buffer.go:126-127 | a size survives its 32-bit field exactly if it is below 2^32, and else loses a multiple of it |
| RingBuffer.EncodeAllAppend | internal/ringbuffer/buffer.go:116-142 | the bytes of a queue with one more block are those of the queue followed by those of the block |
| RingBuffer.RingSplit | internal/ringbuffer/buffer.go:74-111 | reading the ring in two steps, wrapping the position in between, is reading it in one |
| RingBuffer.PutAppends | internal/ringbuffer/buffer.go:126-140 | a copy into the free part, in one piece or wrapped, appends to the contents and disturbs none of them |
| RingBuffer.HeadInRing | internal/ringbuffer/buffer.go:78-111 | header and payload of the oldest block, and all later blocks, are where the read position says, wherever they wrap |
| RingBuffer.AppendRepresents | internal/ringbuffer/buffer.go:126-141 | putting a header and then its payload at the write position represents the queue with that block added |
| RingBuffer.Writer.Write | internal/ringbuffer/buffer.go:89-105 | a writer takes all bytes or, when it fails, as many as it has room for |
| RingBuffer.Copy | internal/ringbuffer/buffer.go:79-81 | Go's copy: as much as fits, and nothing else changes |
| RingBuffer.Buffer.constructor | internal/ringbuffer/buffer.go:55-61 | a new buffer of any capacity stands for the empty queue |
| RingBuffer.Buffer.Len | internal/ringbuffer/buffer.go:64-66 | the length is the sum of payload sizes plus five over the queue, so zero exactly if it is empty |
| RingBuffer.Buffer.ReadHeader | internal/ringbuffer/buffer.go:78-87 | decodes the oldest block's tag and size, though they may wrap, and steps past them |
| RingBuffer.Buffer.WritePayload | internal/ringbuffer/buffer.go:88-109 | delivers exactly the next bytes of the ring in order; fails exactly if the writer has too little room, and then leaves a wrong length |
| RingBuffer.Buffer.WriteBlockTo | internal/ringbuffer/buffer.go:74-111 | refines taking the oldest block off a queue: its payload is delivered, end of file exactly if the queue is empty; after the call the buffer stands for the remaining queue exactly if the writer did not fail |
| RingBuffer.Buffer.Put | internal/ringbuffer/buffer.go:126-140 | the wrapping copy changes exactly the target positions |
| RingBuffer.Buffer.Append | internal/ringbuffer/buffer.go:126-142 | with room, the queue gets the block at its end |
| RingBuffer.Buffer.WriteBlock | internal/ringbuffer/buffer.go:116-142 | refines a bounded queue: too large a block is refused with nothing changed; else the longest suffix of the old blocks that leaves room stays, the new block is last, and each evicted header is reported once and in order; afterwards all sizes can be read back exactly if it was refused or its size fits 32 bits |
| IoChan.Reader.BeginRead | internal/iochan/reader.go:81-84 | a Read offers its buffer |
| IoChan.Reader.FailRead | internal/iochan/reader.go:83-86 | a Read that nobody received fails only once the reader is closed |
| IoChan.Reader.Receive | internal/iochan/reader.go:84-84 | the server gets the offered buffer, with no response outstanding |
| IoChan.Reader.Respond | internal/iochan/reader.go:103-105 | possible only while a response is owed, which never is so after CloseRead; then it is owed no more |
| IoChan.Reader.EndRead | internal/iochan/reader.go:87-92 | a waiting Read gets what was responded, even if the reader was closed since, and an error only if nothing was |
| IoChan.Reader.CloseRead | internal/iochan/reader.go:67-78 | afterwards no response is owed; closing again changes nothing |
| IoChan.Reader.CloseWrite | internal/iochan/reader.go:54-60 | the client's side is closed |
| IoChan.ReadsGetWhatWasSent | internal/iochan/reader.go:81-105 | in every state each Read has come back with exactly one outcome or is the one in progress; the bytes the Reads brought are a prefix of those responded, and all of them when no response is in the channel; and the end was responded exactly if it is among the outcomes or in the channel |
| EventHistory.History.Conserved | tracer.go:957-967 | for each kind of event: handed to the ring = in the ring + in the active request + counted Sent + counted Dropped + in failed requests + too large |
| EventHistory.SortedOutCounts | modelwriter.go:49-82 | those that fit and those too large are, for each kind, all that were handed over |
| EventHistory.StoredIsHanded | tracer.go:1124-1146 | storing events in turn, with whatever evictions, hands over exactly these events |
| EventHistory.History.CountPartition | tracer.go:1153-1213 | every event that left the ring went to eviction, to a good request, to a failed one or to the active one, and to one of these only |
| EventHistory.History.CountResult | tracer.go:1153-1213 | a result moves exactly the ended request's events to the successes or to the failures |
| EventHistory.History.NoneOfFuture | tracer.go:1253-1284 | nothing is assigned to a request that has not begun |
| EventHistory.History.KeptByAccepting | modelwriter.go:49-82 | a stored event keeps the account |
| EventHistory.History.KeptByRefusal | modelwriter.go:49-82 | an event too large for the ring keeps the account, and is counted nowhere |
| EventHistory.History.KeptByEviction | tracer.go:957-967 | an eviction counted by tag keeps the account |
| EventHistory.History.KeptByStreaming | tracer.go:1271-1284 | a block streamed and counted by tag keeps the account, and is the next of the request's events |
| EventHistory.History.KeptByPublishing | tracer.go:1215-1218 | adding the loop's statistics to the tracer's and clearing them keeps the account |
| EventHistory.History.KeptByResult | tracer.go:1153-1211 | adding the request's counts to Sent on success, or dropping them on failure, keeps the account |
| EventHistory.LeavingLeaves | internal/ringbuffer/buffer.go:116-124 | when blocks leave the ring, what is left of the accepted events is exactly the rest |
| EventHistory.LineOfMetricset | tracer.go:1255-1269 | streaming a metricset moves it along the line of what was streamed and what waits, losing nothing |
| EventHistory.LineOfEvent | tracer.go:1270-1284 | and so does streaming an event |
| EventHistory.BadResultKeepsSent | tracer.go:1153-1156 | a bad result counts nothing as sent |
| EventHistory.StreamBegins | tracer.go:1240-1246 | a reset encoder that was given the metadata begins a stream with nothing sent |
| EventHistory.StreamOfBlock | tracer.go:1255-1284 | a block and a newline extend the stream by that block |
| EventHistory.StreamOfFlush | tracer.go:1296-1300 | a flush changes nothing about what the stream says |
| EventHistory.StreamOfClose | tracer.go:1291-1295 | closing the encoder leaves something to send, so that the end is still to be told |
| EventHistory.StreamOfRead | tracer.go:1305-1318 | sending the next bytes keeps what was sent a prefix of the encoder's output, with the end told exactly with the last of it |
| FlushHistory.NoticesOfFlush | tracer.go:590-601 | over every run, the notifications of a Flush are one if it found nothing to send, plus one if a result came before the next Flush |
| FlushHistory.NotifiedOnce | tracer.go:590-601 | so it is notified exactly once if and only if it either found nothing to send or a result came before the next Flush, but not both |
| FlushHistory.PendingIsOpen | tracer.go:1122-1197 | the loop keeps a Flush's channel exactly as long as neither another Flush nor a result comes |
| FlushHistory.BlocksExactly | tracer.go:1195-1197 | a result makes the loop wait for a caller exactly if the last Flush found nothing to send, no result came since, and its notification was never received |
| TracerLoop.Loop.constructor | tracer.go:872-946 | the loop begins with nothing buffered, sent or owed |
| TracerLoop.Loop.EvictOldest | tracer.go:957-967 | the callback counts the block under the kind of its tag, as dropped, while it leaves the ring |
| TracerLoop.Loop.MakeRoom | internal/ringbuffer/buffer.go:121-124 | as many of the oldest events as must go are counted dropped |
| TracerLoop.Loop.WriteEvent | modelwriter.go:49-82 | the event is the newest in the ring after the evictions it needs, or is refused as too large, leaving ring and statistics alone |
| TracerLoop.Loop.WriteMetrics | modelwriter.go:88-104 | a metricset is pushed to the metrics ring, or is lost if too large |
| TracerLoop.Loop.WriteEvents | tracer.go:1124-1146 | all drained events are stored in turn, each after the evictions it needs or refused as too large |
| TracerLoop.Loop.Start | tracer.go:1236-1250 | makes one request active, with a stream that begins with the metadata |
| TracerLoop.Loop.SendMetricsBlock | tracer.go:1255-1269 | the oldest metricset is streamed; a waiting SendMetrics closes the request |
| TracerLoop.Loop.SendEventBlock | tracer.go:1270-1284 | the oldest event goes from the ring to the stream and to the request's account, and to no other |
| TracerLoop.Loop.DrainAll | tracer.go:1254-1285 | metricsets and then events are streamed until both rings are empty or the compressed size reaches the limit |
| TracerLoop.Loop.Fill | tracer.go:1253-1289 | nothing is streamed once the encoder is closed; the request is closed if asked, if SendMetrics waits for metricsets that were streamed, or at the size limit, and for no other reason |
| TracerLoop.Loop.Finish | tracer.go:1290-1301 | closes the encoder once, or flushes it if asked and something was written since the last flush |
| TracerLoop.Loop.Reply | tracer.go:1303-1318 | responds with the next bytes of the encoder's output, as many as fit, only beyond its header, and tells the end exactly with the last bytes of a closed request |
| TracerLoop.Loop.Tail | tracer.go:1215-1318 | what follows each case: statistics are published, a request is active exactly if one was or something was buffered, and a request asked to close is closed; what is streamed and what waits stay one line; a request closed off before streams nothing, and else both rings are empty afterwards or the output has reached the limit |
| TracerLoop.Loop.OnEvent | tracer.go:1067-1089 | keeps the invariant; the event is stored, with the evictions it needs, and only then blocks may leave for the request; one that fits makes a request active; after an error the ring is empty and the encoder flushed, unless the request was closed off |
| TracerLoop.Loop.OnRequestTimer | tracer.go:1090-1092 | keeps the invariant and closes the request's stream |
| TracerLoop.Loop.OnSendMetrics | tracer.go:1096-1105 | keeps the invariant and remembers that a caller waits |
| TracerLoop.Loop.OnGatheredMetrics | tracer.go:1106-1113 | keeps the invariant; the metricsets are pushed in order, and then what is streamed followed by what waits is what was streamed followed by the metrics ring with them and the event ring; all of them are streamed and flushed, unless the request was closed off |
| TracerLoop.Loop.OnForceFlush | tracer.go:1122-1151 | keeps the invariant; the drained events are stored in turn, each under its own kind; notifies at once exactly if no request is active afterwards, and otherwise has the request closed off with the caller waiting; both rings are empty then, unless the request was closed off before and streams nothing more, or its output has reached the limit |
| TracerLoop.Loop.OnRead | tracer.go:1152-1152 | keeps the invariant |
| TracerLoop.Loop.CountResult | tracer.go:1153-1218 | only a good result adds the request's events to Sent |
| TracerLoop.Loop.OnResult | tracer.go:1153-1213 | keeps the invariant; the last caller of Flush is notified; the request's reader is closed and replaced, so it is never responded to again |
| TracerLoop.Loop.OnConfig | tracer.go:1022-1024 | keeps the invariant |
| TracerLoop.Loop.OnOther | tracer.go:1065-1066 | keeps the invariant |
| TracerLoop.Loop.OnClosing | tracer.go:1018-1021 | keeps the invariant, with the reader closed |
| TracerLoop.EventsAccounted | tracer.go:1067-1218 | between iterations, for each kind of event: handed to the ring = in the ring + in the active request + published Sent + published Dropped + in failed requests + too large; and the ring holds exactly the accepted events that have not left it |
| TracerLoop.ReadsArePrefix | tracer.go:1236-1318 | what the Reads of the active request have brought is a prefix of the encoded metadata and blocks, each block with a newline and in the order of the ring; and an end is among their outcomes, or in the channel, exactly when the encoder is closed and all its output sent |
| TracerLoop.FlushNotifiedTwice | tracer.go:1122-1151 | a Flush that finds nothing to send is notified, and again by the next result: its channel is not cleared |
| TracerLoop.FlushOvertaken | tracer.go:1122-1122 | a Flush that still waits when another one comes is forgotten |
| TracerLoop.FlushReturnsEarly | tracer.go:587-601 | a Flush while the active request is closed off: its result notifies the caller with the queued event in no request that has ended |
| TracerLoop.SecondFlushReturnsEarly | tracer.go:587-601 | as it is for the second of two Flushes in a row, in every state |
| TracerRuns.Take | tracer.go:1015-1319 | every case in every state keeps the invariant; exactly the events that it brings are handed to the ring; none but a good result adds to Sent; only a result ends a request; and the caller of Flush is notified at once exactly if no request is active, and the last one by a result |
| TracerRuns.Run | tracer.go:1015-1319 | over every run, whatever the order of cases and of the transport's steps: the events handed over are exactly those of the inputs up to the closing, the results exactly theirs, all events are accounted for, and the notifications are those of the history of Flush; it takes all inputs up to the first result whose notification finds the caller's channel full, and no result that it takes does |
| TracerInputs.RanTaken | tracer.go:1015-1319 | an input that is taken extends the account of a run by what it brings |
| TracerInputs.NotifiesOfMoment | tracer.go:1122-1197 | and the history of Flush by its notifications |
| TracerInputs.HeardOneMore | tracer.go:1195-1197 | one more input whose result, if it is one, finds room in the channel |
| SpanCompression.FallbackAcceptsNothingMore | span_compressed.go:80-83 | once there is a composite, the standard decider accepts nothing that the composite decider refused, and the strategy cannot change |
| SpanCompression.LatestEndIsLatest | span_compressed.go:100-103 | the time kept is the end of a member, and no member ends later |
| SpanCompression.AbsorbKeepsExact | span_compressed.go:74-105 | after absorbing an accepted span, count, sum and latest end are those of the members, which are homogeneous, and the strategy stays |
| SpanCompression.AcceptsExactlyHomogeneous | span_compressed.go:179-257 | a sibling is accepted exactly if with it the group has one parent and one kind (and for exact match one name), and durations within the strategy's maximum |
| DroppedSpansStats.AddKeepsFaithful | transaction.go:457-470 | at most 128 keys are admitted, an admitted key's totals are over every call for it since the first, keys are never dropped, and are turned away only when 128 others are in |
| SpanLife.StepKeepsInv | span.go:366-500 | every operation on a transaction and its spans keeps the invariant: caches and cached spans point at each other one to one, absorbed spans and members correspond, reports are unique, counters are exact |
| SpanLife.RunsKeepInv | span.go:88-500 | so it holds in every state of every run |
| SpanLife.InitialIsGood | transaction.go:44-173 | and at the start |
| SpanLife.StartIsGood | span.go:88-168 | starting a span, dropped at once or not, under any parent, keeps the invariant |
| SpanLife.EndKeepsInv | span.go:366-500 | ending a span, by any branch, keeps the invariant |
| SpanLife.EndTransactionKeepsInv | transaction.go:312-347 | ending the transaction keeps the invariant, and evicts its cached span |
| SpanLife.DiscardTransactionKeepsInv | transaction.go:295-303 | discarding the transaction keeps the invariant |
| SpanLife.CountFate | span.go:623-659 | one span's change of fate changes the counts by exactly that span |
| SpanLaws.InOnePlace | span_compressed.go:140-168 | a span is in the tracer's queue, in a cache or in another span's composite exactly when its fate says so; so never in two of them, nor in any before it is ended |
| SpanLaws.OnceOnly | span_compressed.go:292-334 | and there only once: no event twice, no span in two caches |
| SpanLaws.OneComposite | span_compressed.go:74-105 | no span is a member of two composites, or twice of one |
| SpanLaws.CachedHoldsNothing | span.go:93-98 | a cached span holds no cached child, unless one was started under an explicit context or after its end |
| SpanLaws.HoldsNothing | span_compressed.go:146-150 | an ended span holds no child, unless it was dropped at its start, was returned early as mismatched, or had a child started irregularly |
| SpanLaws.NothingLeftBehind | span_compressed.go:146-150 | an ended span whose parent has ended, and is none of these three, is in no cache, whatever the other spans of the transaction are: it was reported, absorbed, dropped as fast, discarded, or else dropped at its own start or returned early |
| SpanLaws.CompositesAreExact | span_compressed.go:292-308 | a reported span with a composite stands for exactly its members: their number, their summed duration, one kind, and as duration the latest end minus the head's start |
| SpanLaws.CounterLaw | span.go:130-152 | while the transaction is live, spans created + dropped + absorbed = recorded spans started; the first is never negative and never above a non-negative maximum; the dropped-span statistics are faithful |
| SpanLaws.EachIsCounted | span.go:130-152 | each recorded span is in exactly one of the three counts |
| SpanLaws.EndOutcome | span_compressed.go:140-168 | an ending span is absorbed exactly when it reaches a cache whose span accepts it, cached exactly when it reaches another, and else disposed of |
| SpanLaws.AttemptOutcome | span_compressed.go:140-168 | the attempt caches the span exactly if it is enabled, holds no child, has a live holder and is eligible |
| SpanLaws.FlushedExactlyWhen | span.go:398-410 | ending a span that holds a child flushes it exactly if the span is not returned early as mismatched and was not dropped when it started |
| SpanLaws.HeldUntilFlushed | span_compressed.go:140-168 | in every state, a step takes what a parent holds out of its cache if and only if it is that parent's End, not returned early and not dropped at its start, or the End of another child while the parent's data is there, which is neither absorbed nor holds a child itself; what is taken out is gone for good, and else stays cached |
| SpanLaws.LingeringKeepsCache | span_compressed.go:140-168 | so what a cached or absorbed parent holds stays through every step but the End of another of its children |
| SpanLaws.GoneKeepsCache | span.go:366-371 | nothing touches the cache of a span whose data is gone |
| SpanLaws.LeftBehindForever | span.go:398-410 | so a child left behind is never reported, through any further run |
| SpanLaws.LostExactlyWhen | span_compressed.go:140-168 | over every run, a child held by its parent is still cached in the end if and only if no step of the run flushed it, and else was disposed of |
| SpanLaws.HeldFrom | span_compressed.go:310-334 | a span gets into its parent's cache only by its own End, while the parent's data is there |
| SpanLaws.LostToOrdinaryExactly | span.go:93-98 | over every run from its start on, a parent that has ended, neither dropped at its start nor returned early, holds a child in the end if and only if that child's End came when the parent was cached or absorbed, put it there, and nothing flushed it since |
| SpanLaws.DroppedParentLosesChild | span.go:130-150 | a run of eight operations, with no mismatched span, that loses a recorded child: its parent was dropped at the limit on spans |
| SpanLaws.IrregularChildLeftBehind | span.go:93-98 | a run of five operations in which a reported span leaves a recorded child in its cache: the child was started under an explicit context |
| SpanLaws.PropagatedStays | span_compressed.go:170-177 | a propagated span that is neither cached nor absorbed stays so through every step |
| SpanLaws.OrdinaryChildSaves | span.go:93-98 | once a child is started in the ordinary way under a running span, no run has that span cached or absorbed, so that none of its children is caught late |
| SpanLaws.LateChildLeftBehind | span.go:93-98 | a run of five operations, no span started under an explicit context, in which a reported span leaves a recorded child in its cache: the child was started after the End of its parent |
| Spans.Span.constructor | span.go:248-270 | a started span has an empty cache and has not ended |
| Spans.Transaction.constructor | transaction.go:44-173 | a started transaction is the machine's initial state |
| Spans.Transaction.Evict | span_compressed.go:292-308 | empties one cache and settles the composite's name and duration, as the machine does |
| Spans.Transaction.CompressOrEvictCache | span_compressed.go:310-334 | refines the machine's step; returns the span evicted and whether the ending span was taken |
| Spans.Transaction.AttemptCompress | span_compressed.go:140-168 | refines the machine's step |
| Spans.Transaction.Compress | span_compressed.go:74-105 | accepts exactly when the deciders do, and then the cached span's composite has one more member |
| Spans.Transaction.AggregateDroppedSpanStats | span.go:623-634 | refines the machine's step |
| Spans.Transaction.DropFastExitSpan | span.go:648-659 | refines the machine's step: one created span less, one dropped more |
| Spans.Transaction.Finish | span.go:479-500 | refines the machine's step: dropped, or enqueued |
| Spans.Transaction.EndMismatched | span.go:398-410 | refines the machine's step: dropped, its cache as it was, no counter changed |
| Spans.Transaction.End | span.go:366-471 | Span.End updates the objects as the machine's step updates its state, and keeps the invariant; ending twice changes nothing |
| Spans.Transaction.TraceContext | span.go:307-313 | handing out a span's context marks it propagated and nothing else |
| Spans.Transaction.Set | span.go:664-711 | instrumentation's changes to a running span keep the invariant |
| Spans.Transaction.EndTransaction | transaction.go:312-347 | refines the machine's step and keeps the invariant |
| Spans.Transaction.Discard | transaction.go:295-303 | refines the machine's step and keeps the invariant |
| Spans.Transaction.StartSpanOptions | span.go:88-168 | refines the machine's step and keeps the invariant; within a live transaction exactly one fresh span joins it |
| ChildrenTimer.Timer.ChildStarted | breakdown.go:300-305 | one more child is open; if it is the only one a period opens at its report |
| ChildrenTimer.Timer.ChildEnded | breakdown.go:307-312 | one child less is open; if it was the last one the period closes at its report |
| ChildrenTimer.Timer.FinalDuration | breakdown.go:314-320 | for any reports it is the sum of the active periods; if these are in order and cover the children, it is at least the length of the union of their intervals, open ones clipped at the end, and equal to it exactly if there is no gap; for reports in order of time it always is |
| Children.SumMeasures | breakdown.go:300-320 | the sum of periods in order that cover all instants at which a child runs is at least their number, and equal to it if and only if they cover nothing else |
| Children.PeriodsCover | breakdown.go:300-320 | the periods cover all children if each child belongs to one that opens no later than its start and closes no earlier than its end |
| Children.BusyAdvance | breakdown.go:288-320 | letting time pass adds the whole stretch to the union when a child is open, and nothing otherwise |
| Children.BusyCount | breakdown.go:288-320 | and this is how much longer the union gets |
| ChildrenTimer.BusyBounds | span.go:516-531 | the union of children that start no earlier than their parent is between zero and the parent's duration, hence so is its self-time |
| ChildrenTimer.BusyOneMore | breakdown.go:288-320 | a sibling adds to the union its whole duration exactly if it overlaps none of the others, and less otherwise |
| ChildrenTimer.SelfTimesAddUp | span.go:516-531 | in every properly nested tree the self-times add up to at least the root's duration, and to exactly that if and only if no siblings overlap |
| ChildrenTimer.OutOfOrderReports | breakdown.go:300-312 | two siblings reported out of order, so that the period does not cover them: the timer sees one instant of d |
| ChildrenTimer.ReportEnd | span.go:398-418 | a child that is returned early is never reported as ended |
| ChildrenTimer.NeverEnded | breakdown.go:300-320 | a child that is never reported as ended counts from its start to the end, whatever the others do |
| ChildrenTimer.MismatchedChild | span.go:398-418 | so a parent whose child is returned early loses exactly the stretch from that child's start to its own end, however short the child was |
| Breakdown.NoKeyTwice | breakdown.go:211-227 | no bucket ever holds a key twice |
| BreakdownCalls.PromiseKept | breakdown.go:159-198 | over every schedule, with any number of threads and any hash: each call of recordTransaction that has returned returned true exactly if all of its records were accepted, and else a proper prefix was and the next had a new key in a full map; and each record accepted was made by a call, as often as it was accepted |
| BreakdownCalls.NextKeepsPromise | breakdown.go:159-198 | each step of a thread or of the gatherer keeps that |
| BreakdownCalls.AllMadeAtRest | breakdown.go:159-198 | with no call under way, what was accepted is what the calls that returned made |
| Breakdown.MissingKey | breakdown.go:211-227 | a key that is not in its bucket is not in the map at all |
| Breakdown.SeenIsKnown | breakdown.go:200-215 | a key is found in its bucket exactly if it is in the map |
| Breakdown.TiedStays | breakdown.go:200-215 | what a thread will find in the bucket that it read does not change while the index grows |
| Breakdown.InsertRefines | breakdown.go:228-242 | a new entry in the next slot refines adding a key to a plain map |
| Breakdown.AcceptBalanced | breakdown.go:154-161 | committing to a slot keeps the balance of accepted, pending, held and emitted amounts, per key |
| Breakdown.InsertBalanced | breakdown.go:228-242 | so does a new entry |
| Breakdown.AddBalanced | breakdown.go:154-161 | so does each of the two atomic additions |
| Breakdown.DrainBalanced | breakdown.go:252-281 | so does emitting a bucket |
| Breakdown.SwapBalanced | breakdown.go:247-251 | so does swapping the maps |
| Breakdown.EmissionTotal | breakdown.go:252-281 | a bucket emits for each key exactly what its slot held |
| Breakdown.EmissionIsHeld | breakdown.go:252-281 | for its own keys what the map held, for other keys nothing |
| Breakdown.EmitBucket | breakdown.go:252-281 | the loop over a bucket emits it, releases its keys, and leaves the other buckets as they were |
| Breakdown.BreakdownMetrics.constructor | breakdown.go:101-120 | a new pair of maps is balanced |
| Breakdown.BreakdownMetrics.Enter | breakdown.go:164-186 | a thread begins a transaction's records |
| Breakdown.BreakdownMetrics.Lookup | breakdown.go:200-205 | reads the key's bucket as it is then |
| Breakdown.BreakdownMetrics.Scan | breakdown.go:205-215 | without a lock either finds the key's slot in that bucket, or goes on to lock with the number of entries scanned |
| Breakdown.BreakdownMetrics.Insert | breakdown.go:216-243 | under the lock it scans just what was appended since and still agrees with the map: a key that is there is found; a new key is added if there is room and refused if not; and it runs off the array exactly if the map is full, the key new and its bucket not |
| Breakdown.KeysCollide | breakdown.go:135-147 | keys that differ in where one field ends and the next begins have the same hash, whatever the hash function |
| Breakdown.FullMapPanics | breakdown.go:228-236 | for any two keys with the same hash there is a run from the empty maps that runs off the array: it fills the map with one of them and keys of transactions, and records the other |
| Breakdown.TransactionsPanic | breakdown.go:135-147 | whatever the hash function, a run in which each record is that of a transaction for itself does so |
| Breakdown.RecordNew | breakdown.go:164-243 | recording a new key, alone, takes a slot if there is one, and else is refused or runs off the array, the latter exactly if the key's bucket exists |
| Breakdown.BreakdownMetrics.AddCount | breakdown.go:154-156 | the first atomic addition |
| Breakdown.BreakdownMetrics.AddDuration | breakdown.go:157-161 | the second atomic addition |
| Breakdown.BreakdownMetrics.Swap | breakdown.go:247-251 | only with no thread recording; the new active map is empty |
| Breakdown.BreakdownMetrics.Drain | breakdown.go:252-281 | emits one bucket and deletes it |
| Breakdown.BreakdownMetrics.Take | breakdown.go:164-283 | each step of a schedule that can be taken is taken, and does to calls and keys just what the machine's step does |
| Breakdown.BreakdownMetrics.Run | breakdown.go:164-283 | every interleaving of any number of threads with gathers keeps the refinement and the balance, and its calls, keys and accepted records are those of the machine after the same schedule |
| Breakdown.RunFromStart | breakdown.go:159-283 | from empty maps, over every schedule, the promise of recordTransaction is kept |
| Breakdown.NothingLost | breakdown.go:164-283 | with no thread recording and no gather under way, per key and for counts and durations alike: accepted = emitted + held |
| Wildcard.GlobIsPlacement | internal/wildcard/matcher.go:39-56 | a string is in the language of a pattern, defined character by character, exactly if the parts between the stars can be placed in it one after another |
| Wildcard.NewMatcher | internal/wildcard/matcher.go:39-56 | the matcher has the pattern's non-empty parts, and whether it begins and ends with a star |
| Wildcard.HasPrefixLower | internal/wildcard/matcher.go:130-142 | reports no skip exactly if s, lower-cased, has the prefix |
| Wildcard.Find | internal/wildcard/matcher.go:83-118 | finds the leftmost occurrence, or says that there is none |
| Wildcard.MatchParts | internal/wildcard/matcher.go:76-127 | the greedy loop succeeds exactly if the parts can be placed somehow with anything after them |
| Wildcard.TakePart | internal/wildcard/matcher.go:76-127 | taking a part at its leftmost occurrence loses no placement |
| Wildcard.Match | internal/wildcard/matcher.go:67-128 | true exactly if the string ends with the last part, where no star does, and the other parts can be placed from its beginning on with anything after them |
| Wildcard.GlobIsAccepted | internal/wildcard/matcher.go:67-128 | every string in the pattern's language is accepted |
| Wildcard.AcceptedIsPlaced | internal/wildcard/matcher.go:67-128 | under the exact condition, every accepted string is in the language |
| Wildcard.OverlapIsAccepted | internal/wildcard/matcher.go:67-75 | and without it there is an accepted string that is not |
| Wildcard.ExactlyWhen | internal/wildcard/matcher.go:67-128 | the matcher decides exactly the pattern's language if and only if the pattern ends with a star, has at most one part, or has a last part that cannot overlap what ends before it |
| Wildcard.OverlapExample | internal/wildcard/matcher.go:67-75 | a*a matches a |
| Wildcard.MatchPattern | internal/wildcard/matcher.go:39-142 | on ASCII the case-insensitive matcher is the case-sensitive one for the lower-cased pattern on the lower-cased string |
| ConfigOverlay.CollectChanges | config.go:413-580 | drops what does not parse, and collects updates that, applied, give each changed field its new value and leave the others; none only if nothing changed |
| ConfigOverlay.CollectReversions | config.go:582-590 | adds updates that give each field of a key no longer configured its local value, and leave the others |
| ConfigOverlay.Tracer.SetLocalUnder | config.go:617-624 | a local value is registered, and in effect unless the key is remotely configured |
| ConfigOverlay.Tracer.SetLocal | tracer.go:776-849 | keeps the overlay: under remote configuration the field stays, otherwise it has the local value |
| ConfigOverlay.Tracer.Install | config.go:591-608 | applies all updates at once, with the set of remote keys |
| ConfigOverlay.Tracer.UpdateRemoteConfig | config.go:413-608 | afterwards the fields of dropped keys are local and the others of the new configuration; each field has its valid remote value, or else its local value, if and only if keys that name the same variable agree on it |
| ConfigValues.AllReverted | config.go:413-608 | the fields after both loops are the overlay of what is configured now exactly if keys that name the same variable agree, and a dropped key that names the variable of a configured one has that value locally |
| ConfigValues.HarmlessWhateverLocal | config.go:582-590 | and this whatever the local values exactly if no dropped key names the variable of a configured one |
| ConfigOverlay.Tracer.OnChange | tracer.go:1048-1064 | the change's valid entries are what is configured; the overlay is kept if and only if keys that name the same variable agree |
| ConfigOverlay.Tracer.OnError | tracer.go:1053-1056 | an error from the watcher changes nothing |
| ConfigOverlay.Tracer.OnClosed | tracer.go:1048-1052 | a closed channel is listened to no more, and what was configured stays in force |
| ConfigOverlay.Tracer.OnWatcher | tracer.go:1025-1047 | another watcher, or none, restores exactly the local configuration if and only if the channel of the one before was still open, or what is configured agrees with the local values |
| ConfigOverlay.Run | tracer.go:1022-1064 | over every run of local settings, changes, errors, closed channels and watchers, what is in force is the last change over the last local values, up to the first change whose keys disagree |
| ConfigOverlay.RevertsOwnField | config.go:582-590 | reverting a key restores its field, whatever the present values, exactly if the function registered under the key sets that field |
| ConfigValues.SetExactly | config.go:617-624 | a setter registered under whatever key keeps central over local configuration if and only if that key is remote just when the field is, or the field had the value |
| ConfigOverlay.SetUnderKey | tracer.go:804-835 | so does the tracer's, on any state of it |
| ConfigOverlay.WrongKeyOverridesRemote | tracer.go:829-835 | a setter registered under another key changes its field though that is remotely configured, and breaks the overlay |
| ConfigOverlay.WrongKeyIgnored | tracer.go:821-825 | a setter registered under another key that is remotely configured does nothing, though its own field is not, and breaks the overlay |
| ConfigOverlay.SameVariable | config.go:422-424 | keys in different case name the same variable |
| ConfigOverlay.SameVariableInAnotherCase | config.go:582-590 | after a change whose one key names the variable of the key configured before, the field has its local value though the new one is configured |
| ConfigOverlay.ClosedWatchKeepsRemote | tracer.go:1025-1052 | once a watcher has closed its channel, dropping it leaves the remote value in effect |
| ErrorBuilder.ExceptionDataBuilder.Visit | error.go:443-455 | an error is registered unless its pointer was visited |
| ErrorBuilder.ExceptionDataBuilder.Init | error.go:411-508 | terminates on every graph; counts the root and at most all causes of its nodes, and no more than its nodes and the causes whose pointer was visited; the tree is faithful to the errors, repeats no pointer, and unless the limit was reached leaves out no cause that was not visited |
| ErrorBuilder.ExceptionDataBuilder.InitCauses | error.go:480-508 | keeps these bounds over the loop, the limit being checked before each cause |
| ErrorBuilder.InitException | error.go:400-403 | at most 50 nodes, no pointer twice; unless the nodes have 49 causes or more, and with those of their causes that have a node's pointer are 50 or more, the tree is closed, and where pointers tell errors apart it has every error that can be reached |
| ErrorTree.ReachedIsIncluded | error.go:411-508 | where pointers tell errors apart, a closed tree has every error that can be reached through causes |
| ErrorTree.ClosedIsWhole | error.go:411-508 | where pointers tell errors apart, a closed tree has all that can be reached |
| ErrorTree.CausesIncluded | error.go:480-508 | each cause of a node is a node, or was visited |
| ErrorModel.ModelWriter.AppendFrames | modelwriter.go:193-206 | the first traversal appends all frames of the tree |
| ErrorModel.ModelWriter.BuildException | modelwriter.go:209-241 | the second traversal gives each exception exactly its own frames, and finds the culprit |
| ErrorModel.SlicesPartition | modelwriter.go:191-251 | the slices of the exceptions tile their part of the array: none overlap, nothing is left |
| ErrorModel.BuildModelError | modelwriter.go:191-258 | for any data: one array holds the exception's frames and then the log's; each exception has its own; the log's slice is its own exactly if there is an exception, or none of its frames were copied, or the log has none |
| ErrorModel.Error.NewError | error.go:94-109 | an error has a message, and frames of its own or of its caller |
| ErrorModel.Error.NewErrorLog | error.go:117-136 | a log has a message, and an exception exactly if it has an error |
| ErrorModel.Error.SetStacktrace | error.go:513-519 | the frames go to the log exactly if there is one, so that an exception without a message never has frames |
| ErrorModel.WriteError | modelwriter.go:74-82 | so for every error that callers can make, each exception has exactly its own frames and the log exactly its own; and the culprit is one already set, or from the exception, or from the log |
| ErrorModel.CulpritIsInnermost | modelwriter.go:209-268 | the culprit of an exception is one already set, or else that of the first stack trace that has one, causes before what they caused |
| ErrorModel.PrependCustom | error.go:311-338 | the overlapping copies in one array put the transaction's custom context before the error's own |
| MetricOrder.Opposite | metrics.go:135-158 | the comparison is opposite when turned round, and zero for equal labels only |
| MetricOrder.Transitive | metrics.go:135-158 | and transitive: a total order |
| MetricSets.CompareLabels | metrics.go:135-158 | the loop computes that order |
| MetricOrder.AddedSorted | metrics.go:103-130 | insertion at the place found keeps the sets strictly sorted by labels |
| MetricOrder.AddedHolds | metrics.go:103-130 | and records the metric under its labels and name, with all else as before |
| MetricSets.Metrics.Search | metrics.go:95-101 | finds where the labels belong; the remembered comparison at an index in range is the one made there, never an unwritten zero |
| MetricSets.Metrics.AddMetric | metrics.go:91-131 | refines a map from labels and name to the last metric; disabled or non-finite ones change nothing |
| Traceparent.DecodeEncoded | module/apmhttp/traceheaders.go:54-72 | hexadecimal digits are read back as the bytes they were made from |
| Traceparent.EncodeDecoded | module/apmhttp/traceheaders.go:81-144 | and bytes read are written as the same digits in lower case |
| Traceparent.ParseFormatted | module/apmhttp/traceheaders.go:54-144 | a formatted header is read back to the same context exactly if both IDs are non-zero, and refused otherwise (W3C Trace Context, section 3.2) |
| Traceparent.FormatParsed | module/apmhttp/traceheaders.go:81-144 | an accepted header has non-zero IDs, and formatting what was read gives it in lower case exactly if its version is 00 |
| TracestateText.ListOfSelf | tracecontext.go:178-213 | a list is made of itself exactly if Elastic's entry is nowhere but at its head; making a list twice is making it once |
| TracestateText.ParsePrinted | tracecontext.go:255-268 | a list of entries without separators in the wrong place is read back as printed |
| TracestateText.StateRoundTrip | module/apmhttp/traceheaders.go:157-180 | every valid state is read back from its printed header as the same list |
| TracestateText.Joined | module/apmhttp/traceheaders.go:157-180 | two header values joined with a comma give what they give one after the other exactly if the first is not blank and does not end with a comma, and an error otherwise (W3C Trace Context, section 3.3) |
| TracestateText.JoinedAll | module/apmhttp/traceheaders.go:157-180 | any distribution over such values gives what the one joined value gives |
| TracestateText.KeyHasNoSeparator | tracecontext.go:49-60 | a valid key has no comma, no equals sign and no space at its front |
| TracestateText.ListOfMore | tracecontext.go:183-208 | what one more entry does to the list |
| Tracestate.PushFront | tracecontext.go:189-193 | a node in front of a linked list |
| Tracestate.SetValue | tracecontext.go:185-187 | the head's value alone changes |
| Tracestate.PushBack | tracecontext.go:201-208 | a node behind the last, the head if there was none |
| Tracestate.NewTraceState | tracecontext.go:178-213 | the linked nodes are Elastic's entry with its last value, if any, and then the others in their order |
| Tracestate.String | tracecontext.go:255-268 | prints the list's entries in order with commas between |
| Tracestate.Validate | tracecontext.go:272-296 | valid exactly if there are at most 32 entries, each valid |
| Tracestate.ParseInto | module/apmhttp/traceheaders.go:159-178 | the loop over one value appends exactly its entries, or fails |
| Tracestate.ParseTracestateHeader | module/apmhttp/traceheaders.go:157-180 | the entries of all values in order, or an error if one fails |
| Runes.Truncate | internal/apmstrings/truncate.go:22-31 | the first n runes of any bytes, and how many they are |
| Runes.FirstIsPrefix | internal/apmstrings/truncate.go:22-31 | a prefix with as many runes as there are, but at most n; all of the text exactly if it has no more |
| Runes.FirstOfBoth | model/marshal.go:262-269 | truncating two texts in turn is truncating the whole, if no rune crosses the boundary |
| FullURL.MarshalScheme | model/marshal.go:214-237 | the scheme in lower case; refused exactly if a byte may not be in one |
| FullURL.Writer.constructor | model/marshal.go:240-253 | the count of runes begins with the scheme's bytes |
| FullURL.Writer.RawByte | model/marshal.go:255-261 | keeps the contents the first runes of what was to be written |
| FullURL.Writer.StringContents | model/marshal.go:262-269 | keeps the contents the first runes of what was to be written, for any bytes, well formed or not |
| FullURL.MarshalFullURL | model/marshal.go:239-298 | exactly the first 1024 runes of the whole URL, brackets and separators included, whichever part crosses the limit |
| SqlText.TokenAdvances | sqlutil/scanner.go:57-172 | a token's text is within what was read, and the position moves on; or else the scanner stops where no rune is left |
| SqlText.NoMoreTokens | sqlutil/scanner.go:57-71 | once there is no token there never is one |
| SqlLaws.TokensFollow | sqlutil/scanner.go:57-71 | over a whole text, the tokens follow one another without overlap, and are no more than its bytes |
| SqlLaws.CommentEndsFirst | sqlutil/scanner.go:299-322 | a bracketed comment ends where its nesting first returns to zero; else it has no end |
| SqlLaws.DollarTags | sqlutil/scanner.go:143-168 | a dollar-quoted string begins with a tag and ends where that tag is first found again |
| SqlLaws.QuotedIsOneString | sqlutil/scanner.go:264-289 | any well-formed text, its quotes and backslashes doubled, is in quotes exactly one string token |
| SqlText.RuneLenIsWidth | sqlutil/scanner.go:72-72 | stepping back by a rune's length undoes reading it |
| SqlScanner.Scanner.Next | sqlutil/scanner.go:330-338 | reads one rune if there is one |
| SqlScanner.Scanner.Scan | sqlutil/scanner.go:57-60 | the token, its text and the position are those of the lexical definition |
| SqlScanner.Scanner.ScanToken | sqlutil/scanner.go:62-172 | so for each kind of token, white space skipped |
| SqlScanner.Scanner.ScanKeywordOrIdentifier | sqlutil/scanner.go:174-203 | the whole word; a keyword exactly if it is all letters and spelled like one in any case |
| SqlScanner.Scanner.ScanQuotedIdentifier | sqlutil/scanner.go:205-228 | up to the closing delimiter, doubled double quotes passed; the text without the quotes |
| SqlScanner.Scanner.ScanNumericLiteral | sqlutil/scanner.go:230-262 | the longest number with one period and one exponent |
| SqlScanner.Scanner.ScanStringLiteral | sqlutil/scanner.go:264-289 | up to the quote that closes it |
| SqlScanner.Scanner.ScanSimpleComment | sqlutil/scanner.go:291-297 | up to the end of the line |
| SqlScanner.Scanner.ScanBracketedComment | sqlutil/scanner.go:299-322 | up to where the nesting ends |
| SqlScanner.Scanner.ScanDollar | sqlutil/scanner.go:124-171 | a variable, a dollar-quoted string, or neither |
| SqlScanner.Scanner.ScanDollarQuoted | sqlutil/scanner.go:140-168 | the string from tag to tag, or what there is up to white space or the end |

## Left out

- HTTP transport, TLS, host and cloud metadata, profiling, log files, real clocks, timers, grace periods and random numbers: times, identifiers and results are inputs.
- Generated JSON marshalling and its writer: an encoded event is any sequence of bytes; the cut URL is what the writer is given, before it escapes it.
- Integer widths: counters and durations are unbounded, but for the size field of the ring buffer's headers.
- Steps finer than a lock or an atomic operation, and the memory model of Go.
- The full events channel: an event that does not get into it is counted as dropped by its sender (span.go:533-544, transaction.go:349-365), before this model begins.
- Unsampled transactions that are dropped for newer servers (tracer.go:1383-1396): they do not reach the model writer.
- Sampling, stack traces of spans, HTTP and database contexts of spans; a span's name, type, target and outcome are whatever they are when it ends.
- Spans.Transaction.StartSpanOptions: does not model the span that Tracer.StartSpan makes after the end of its transaction, because that span belongs to no transaction and is neither cached nor counted.
- Spans.Transaction.End: does not model reportSelfTime together with the machine, because the timers do not influence what becomes of spans; ChildrenTimer models the timers and self-times on their own.
- Spans.Transaction.Discard: does not model the pooling of transaction data, because every object is a new one.
- TracerLoop.Loop.OnSendMetrics: does not model which caller of SendMetrics is notified, because only whether one waits has an effect on the stream.
- TracerLoop.Loop.OnEvent: does not model the breakdown record of a transaction, because module Breakdown does, and the two share no state.
- TracerLoop.Loop.constructor: does not model the byte rings inside the loop, because RingBuffer.Buffer is proved to be the queue that is used here.
- ConfigOverlay.Tracer.UpdateRemoteConfig: does not model the log level, because it is no part of the instrumentation configuration; how a value is parsed is a parameter.
- Wildcard.HasPrefixLower: does not model characters beyond ASCII, because case folding is not one character for one there; case-sensitive matching is modelled for all bytes.
- Wildcard.Find: does not model case-insensitive search beyond ASCII, for the same reason.
- Wildcard.MatchParts: does not model case-insensitive matching beyond ASCII, for the same reason.
- Wildcard.Match: does not model case-insensitive matching beyond ASCII, for the same reason.
- Wildcard.MatchPattern: does not model case folding beyond ASCII, because it is not one character for one.
- ErrorBuilder.ExceptionDataBuilder.Init: does not model types, codes and error details, because only causes, pointers, messages and frames decide the tree; truncation of messages is left out.
- MetricSets.Metrics.AddMetric: does not model floating point; whether a value is finite is a parameter.
- Tracestate.Validate: does not model the parsing of Elastic's own entry (a sample rate), because it is floating point; whether it was valid is a parameter.
- Tracestate.ParseTracestateHeader: does not model white space and characters beyond ASCII in headers.
- SqlScanner.Scanner.Scan: does not model Unicode's tables; which runes are letters, digits and white space is a parameter.
- Consecutiveness of compressed spans: the code does not keep it, since a sibling that flushes its own child leaves its parent's cache alone (span_compressed.go:146-150).
- Request body capture (capturebody.go): its exact truncation fails when a rune is split across two reads.
- The instrumentation modules, but for the trace headers of module/apmhttp.
