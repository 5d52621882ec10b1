/** The tracer's event loop (tracer.go): buffering of encoded events and streaming them, one
    request at a time, to the reader from which the request pulls its body.

    The two ring buffers appear as the queues that module RingBuffer proves them to be.
    The zlib writer is any append-only encoder.  The methods On... are the cases of the
    select statement, in whatever order they come, each with the rest of its iteration. */
module TracerLoop {
  import opened Basics
  import opened RingBuffer
  import opened IoChan
  import opened EventHistory

  class Loop {
    const codec: Codec
    const metadata: seq<byte>
    const bufferSize: nat
    const metricsBufferSize: nat

    var requestSize: int
    var buffer: seq<Block>
    var metricsBuffer: seq<Block>
    var zlib: Zlib
    var request: Request
    var counts: Counts
    var reader: Reader
    var req: Option<nat>

    /** The last callers of Flush and SendMetrics, to be notified; the Flushes are numbered. */
    var flushed: Option<nat>
    var sentMetrics: bool

    /** The loop's own statistics, and those that Tracer.Stats returns. */
    var stats: Stats
    var published: Stats
    var stopped: bool

    /** What became of the events; the blocks streamed to the active request; and whether the
        last caller of Flush still has not been notified. */
    ghost var h: History
    ghost var streamed: seq<Block>
    ghost var waiting: bool

    // ----- the invariant -----

    ghost predicate EventsKept()
      reads this
    {
      h.Kept(buffer, bufferSize, request.active, stats, published, counts)
    }

    ghost predicate MetricsKept()
      reads this
    {
      MetricsFit(metricsBuffer, metricsBufferSize)
    }

    /** The active request's stream, with these events in it. */
    ghost predicate StreamingOf(events: seq<Block>)
      reads this, reader
    {
      Streams(codec, metadata, zlib, streamed, events, request.active, request.closing, request.bytesRead, reader.sent, reader.told)
    }

    ghost predicate Streaming()
      reads this, reader
    {
      StreamingOf(h.Current())
    }

    ghost predicate Reading()
      reads this, reader
    {
      Serves(reader, req, stopped)
    }

    ghost predicate Valid()
      reads this, reader
    {
      && EventsKept()
      && MetricsKept()
      && Streaming()
      && Reading()
      && Timely(request, waiting, flushed)
    }

    ghost predicate Busy()
      reads this
    {
      BusyWith(request, zlib, buffer, metricsBuffer)
    }

    ghost predicate Idle()
      reads this
    {
      IdleWith(request, buffer, metricsBuffer, waiting)
    }

    /** What holds between iterations besides. */
    ghost predicate Settled()
      reads this
    {
      AtRest(stats, request, zlib, buffer, metricsBuffer, waiting)
    }

    /** requestBuf.Len() */
    function BufLen(): int
      reads this
    {
      |codec(zlib.ops)| - request.bytesRead
    }

    constructor (codec: Codec, metadata: seq<byte>, bufferSize: nat, metricsBufferSize: nat, requestSize: int)
      requires Lawful(codec)
      ensures Valid() && Settled() && !stopped && fresh(reader) && h == NO_HISTORY
    {
      this.codec, this.metadata := codec, metadata;
      this.bufferSize, this.metricsBufferSize, this.requestSize := bufferSize, metricsBufferSize, requestSize;
      buffer, metricsBuffer, zlib, request, counts := [], [], Zlib([], true, false), NO_REQUEST, NO_COUNTS;
      NothingYet(bufferSize);
      req := None;
      reader := new Reader();
      flushed, sentMetrics, stats, published, stopped := None, false, NO_STATS, NO_STATS, false;
      h, streamed, waiting := NO_HISTORY, [], false;
    }

    // ----- the model writer -----

    /** The Evicted callback. */
    method EvictOldest()
      requires EventsKept() && buffer != []
      modifies this`buffer, this`stats, this`h
      ensures EventsKept()
      ensures buffer == old(buffer)[1..] && h == old(h).Gone(Evicted)
      ensures stats == old(stats).IncDropped(old(buffer)[0].tag) && stats.SentAs(old(stats))
      ensures h.Current() == old(h.Current())
    {
      h.KeptByEviction(buffer, bufferSize, request.active, stats, published, counts);
      stats := stats.IncDropped(buffer[0].tag);
      h := h.Gone(Evicted);
      buffer := buffer[1..];
    }

    /** The evictions of WriteBlock: the callback once for each block it takes out. */
    method MakeRoom(need: nat)
      requires EventsKept() && need <= bufferSize
      modifies this`buffer, this`stats, this`h
      ensures EventsKept() && TotalSize(buffer) + need <= bufferSize
      ensures h == Leaving(old(h), Evicted, EvictCount(old(buffer), need, bufferSize))
      ensures buffer == old(buffer)[EvictCount(old(buffer), need, bufferSize)..]
      ensures h.Current() == old(h.Current()) && stats.SentAs(old(stats))
    {
      ghost var q0, h0 := buffer, h;
      var k := EvictCount(buffer, need, bufferSize);
      EvictCountIsLeast(buffer, need, bufferSize, k);
      for i := 0 to k
        invariant EventsKept()
        invariant h == Leaving(h0, Evicted, i) && buffer == q0[i..]
        invariant h.Current() == h0.Current() && stats.SentAs(old(stats))
      {
        EvictOldest();
      }
    }

    ghost method Refuse(b: Block)
      requires EventsKept() && b.Size() > bufferSize
      modifies this`h
      ensures EventsKept() && h == old(h).Refused(b) && h.Current() == old(h.Current())
    {
      h.KeptByRefusal(buffer, bufferSize, request.active, stats, published, counts, b);
      h := h.Refused(b);
    }

    method Accept(b: Block)
      requires EventsKept() && IsEvent(b.tag) && TotalSize(buffer) + b.Size() <= bufferSize
      modifies this`buffer, this`h
      ensures EventsKept() && buffer == old(buffer) + [b]
      ensures h == old(h).Accepted(b) && h.Current() == old(h.Current())
    {
      h.KeptByAccepting(buffer, bufferSize, request.active, stats, published, counts, b);
      h := h.Accepted(b);
      buffer := buffer + [b];
    }

    /** writeTransaction, writeSpan and writeError: an event larger than the whole buffer is
        lost without a trace in the statistics. */
    method WriteEvent(b: Block)
      requires EventsKept() && IsEvent(b.tag)
      modifies this`buffer, this`stats, this`h
      ensures EventsKept() && h.Current() == old(h.Current())
      ensures h == Stored(old(h), old(buffer), b, bufferSize)
      ensures b.Size() > bufferSize ==> buffer == old(buffer) && stats == old(stats)
      ensures b.Size() <= bufferSize ==> buffer != []
      ensures stats.SentAs(old(stats)) && (buffer == [] ==> stats == old(stats))
    {
      if b.Size() > bufferSize {
        Refuse(b);
        return;
      }
      MakeRoom(b.Size());
      Accept(b);
    }

    /** writeMetrics, for one metricset: what it evicts, or is too large for, is lost silently. */
    method WriteMetrics(b: Block)
      requires MetricsKept() && b.tag == METRICS_BLOCK_TAG
      modifies this`metricsBuffer
      ensures MetricsKept()
      ensures metricsBuffer ==
              if b.Size() > metricsBufferSize then old(metricsBuffer) else Pushed(old(metricsBuffer), b, metricsBufferSize)
    {
      if b.Size() <= metricsBufferSize {
        MetricsFitPushed(metricsBuffer, metricsBufferSize, b);
        metricsBuffer := Pushed(metricsBuffer, b, metricsBufferSize);
      }
    }

    method WriteAllMetrics(metrics: seq<Block>)
      requires MetricsKept() && forall b :: b in metrics ==> b.tag == METRICS_BLOCK_TAG
      modifies this`metricsBuffer
      ensures MetricsKept() && metricsBuffer == PushedTo(old(metricsBuffer), metrics, |metrics|, metricsBufferSize)
    {
      for i := 0 to |metrics|
        invariant MetricsKept() && metricsBuffer == PushedTo(old(metricsBuffer), metrics, i, metricsBufferSize)
      {
        assert metrics[i] in metrics;
        WriteMetrics(metrics[i]);
      }
    }

    // ----- streaming -----

    method Accumulate()
      requires EventsKept()
      modifies this`stats, this`published
      ensures EventsKept() && stats == NO_STATS && published == Accumulated(old(published), old(stats))
    {
      if stats != NO_STATS {
        h.KeptByPublishing(buffer, bufferSize, request.active, stats, published, counts);
        published := published.Plus(stats);
        stats := NO_STATS;
      }
    }

    /** Asks for a request, with a new stream that begins with the metadata. */
    method Start()
      requires EventsKept() && Streaming() && !request.active
      modifies this`zlib, this`request, this`streamed
      ensures EventsKept() && Streaming() && !zlib.closed
      ensures request == old(request).(active := true, timer := true) && streamed == []
    {
      StreamBegins(codec, metadata, zlib, streamed, h.Current(), request.closing, request.bytesRead, reader.sent, reader.told);
      h.KeptByStart(buffer, bufferSize, stats, published, counts);
      zlib := Zlib([Write(metadata)], false, false);
      request := request.(active := true, timer := true);
      streamed := [];
    }

    /** zlibWriter.Write of the block, and of the newline. */
    method EncodeBlock(b: Block, ghost events: seq<Block>, ghost after: seq<Block>)
      requires StreamingOf(events) && request.active && !zlib.closed
      requires after == events + if IsEvent(b.tag) then [b] else []
      modifies this`zlib, this`streamed
      ensures StreamingOf(after) && !zlib.closed && streamed == old(streamed) + [b]
    {
      StreamOfBlock(codec, metadata, zlib, streamed, events, request.closing, request.bytesRead, reader.sent, reader.told, b);
      zlib := zlib.Block(b);
      streamed := streamed + [b];
    }

    method SendMetricsBlock()
      requires Streaming() && MetricsKept() && request.active && !zlib.closed && metricsBuffer != []
      modifies this`metricsBuffer, this`zlib, this`request, this`streamed
      ensures Streaming() && MetricsKept() && !zlib.closed
      ensures metricsBuffer == old(metricsBuffer)[1..] && streamed == old(streamed) + [old(metricsBuffer)[0]]
      ensures request.closing == (old(request.closing) || sentMetrics)
      ensures request.Steady(old(request))
    {
      MetricsFitStill(metricsBuffer, metricsBufferSize);
      EncodeBlock(metricsBuffer[0], h.Current(), h.Current());
      metricsBuffer := metricsBuffer[1..];
      request := request.(metricsets := request.metricsets + 1);
      if sentMetrics {
        request := request.(closing := true);
      }
    }

    /** The block goes from the ring buffer to the active request's account. */
    method TakeOldest() returns (b: Block)
      requires EventsKept() && request.active && buffer != []
      modifies this`buffer, this`counts, this`h
      ensures EventsKept() && b == old(buffer)[0] && IsEvent(b.tag) && buffer == old(buffer)[1..]
      ensures h == old(h).Gone(Streamed(|old(h).results|))
      ensures h.Current() == old(h.Current()) + [b]
    {
      b := buffer[0];
      h.KeptByStreaming(buffer, bufferSize, stats, published, counts);
      buffer := buffer[1..];
      counts := counts.Inc(b.tag);
      h := h.Gone(Streamed(|h.results|));
    }

    method SendEventBlock()
      requires EventsKept() && Streaming() && request.active && !zlib.closed && buffer != []
      modifies this`buffer, this`zlib, this`counts, this`h, this`streamed
      ensures EventsKept() && Streaming() && !zlib.closed
      ensures h == old(h).Gone(Streamed(|old(h).results|)) && buffer == old(buffer)[1..]
      ensures streamed == old(streamed) + [old(buffer)[0]]
      ensures request.Steady(old(request))
    {
      ghost var events := h.Current();
      var b := TakeOldest();
      EncodeBlock(b, events, h.Current());
    }

    method DrainOne()
      requires EventsKept() && MetricsKept() && Streaming() && request.active && !zlib.closed
      requires metricsBuffer != [] || buffer != []
      modifies this`buffer, this`metricsBuffer, this`zlib, this`request, this`counts, this`h, this`streamed
      ensures EventsKept() && MetricsKept() && Streaming() && !zlib.closed
      ensures if old(metricsBuffer) != [] then
                && metricsBuffer == old(metricsBuffer)[1..] && buffer == old(buffer) && h == old(h)
                && request.closing == (old(request.closing) || sentMetrics)
              else
                && metricsBuffer == old(metricsBuffer) && buffer == old(buffer)[1..] && h == old(h).Gone(Streamed(|old(h).results|))
                && request.closing == old(request.closing)
      ensures Line(streamed, metricsBuffer, buffer) == old(Line(streamed, metricsBuffer, buffer))
      ensures request.Steady(old(request))
    {
      if metricsBuffer != [] {
        LineOfMetricset(streamed, metricsBuffer, buffer);
        SendMetricsBlock();
      } else {
        LineOfEvent(streamed, buffer);
        SendEventBlock();
      }
    }

    /** Drains the buffers into the request for as long as its compressed size is below the
        limit: metricsets and then, when there are no more of these, k events. */
    method DrainAll() returns (ghost k: nat)
      requires EventsKept() && MetricsKept() && Streaming() && request.active && !zlib.closed
      modifies this`buffer, this`metricsBuffer, this`zlib, this`request, this`counts, this`h, this`streamed
      ensures EventsKept() && MetricsKept() && Streaming() && !zlib.closed && request.Steady(old(request))
      ensures |metricsBuffer| <= |old(metricsBuffer)| && (k > 0 ==> metricsBuffer == [])
      ensures Line(streamed, metricsBuffer, buffer) == old(Line(streamed, metricsBuffer, buffer))
      ensures h == Leaving(old(h), Streamed(|h.results|), k) && k + |buffer| == |old(buffer)|
      ensures (buffer == [] && metricsBuffer == []) || |codec(zlib.ops)| >= requestSize
      ensures request.closing == (old(request.closing) || (sentMetrics && |metricsBuffer| < |old(metricsBuffer)|))
    {
      hide History.Kept, MetricsFit, Streams, Serves;
      ghost var h0 := h;
      k := 0;
      while request.bytesRead + BufLen() < requestSize && (metricsBuffer != [] || buffer != [])
        invariant EventsKept() && MetricsKept() && Streaming() && !zlib.closed && request.Steady(old(request))
        invariant |metricsBuffer| <= |old(metricsBuffer)| && (k > 0 ==> metricsBuffer == [])
        invariant Line(streamed, metricsBuffer, buffer) == old(Line(streamed, metricsBuffer, buffer))
        invariant h == Leaving(h0, Streamed(|h0.results|), k) && k + |buffer| == |old(buffer)|
        invariant request.closing == (old(request.closing) || (sentMetrics && |metricsBuffer| < |old(metricsBuffer)|))
        decreases |metricsBuffer| + |buffer|
      {
        ghost var metrics := metricsBuffer != [];
        DrainOne();
        k := if metrics then k else k + 1;
      }
    }

    method Drain() returns (ghost k: nat)
      requires Valid() && request.active && !zlib.closed
      modifies this`buffer, this`metricsBuffer, this`zlib, this`request, this`counts, this`h, this`streamed
      ensures Valid() && !zlib.closed && request.Steady(old(request))
      ensures |metricsBuffer| <= |old(metricsBuffer)| && (k > 0 ==> metricsBuffer == [])
      ensures Line(streamed, metricsBuffer, buffer) == old(Line(streamed, metricsBuffer, buffer))
      ensures h == Leaving(old(h), Streamed(|h.results|), k) && k + |buffer| == |old(buffer)|
      ensures (buffer == [] && metricsBuffer == []) || |codec(zlib.ops)| >= requestSize
      ensures request.closing == (old(request.closing) || (sentMetrics && |metricsBuffer| < |old(metricsBuffer)|))
    {
      k := DrainAll();
    }

    /** Drains the buffers unless the stream is closed off, and decides whether to close it. */
    method Fill() returns (ghost k: nat)
      requires Valid() && request.active
      modifies this`buffer, this`metricsBuffer, this`zlib, this`request, this`counts, this`h, this`streamed
      ensures Valid() && zlib.closed == old(zlib.closed) && request.Steady(old(request))
      ensures |metricsBuffer| <= |old(metricsBuffer)| && (k > 0 ==> metricsBuffer == [])
      ensures Line(streamed, metricsBuffer, buffer) == old(Line(streamed, metricsBuffer, buffer))
      ensures h == Leaving(old(h), Streamed(|h.results|), k) && k + |buffer| == |old(buffer)|
      ensures zlib.closed ==> k == 0 && request.closing && zlib == old(zlib)
      ensures !zlib.closed ==>
                && (request.closing <==>
                    || old(request.closing) || (sentMetrics && |metricsBuffer| < |old(metricsBuffer)|)
                    || |codec(zlib.ops)| >= requestSize)
                && ((buffer == [] && metricsBuffer == []) || |codec(zlib.ops)| >= requestSize)
    {
      k := 0;
      if !request.closing || !zlib.closed {
        k := Drain();
        if !request.closing {
          request := request.(closing := request.bytesRead + BufLen() >= requestSize);
        }
      }
    }

    /** Closes the stream off, or flushes it if that was asked for. */
    method Finish()
      requires Valid() && request.active && (request.closing || (buffer == [] && metricsBuffer == []))
      modifies this`zlib, this`request
      ensures Valid() && Busy() && request == old(request).(flushing := request.flushing)
      ensures old(request.flushing) && !zlib.closed ==> zlib.flushed
      ensures !old(zlib.closed) && old(DrainedTo(codec, zlib, buffer, metricsBuffer, requestSize)) ==> DrainedTo(codec, zlib, buffer, metricsBuffer, requestSize)
      ensures zlib == if old(zlib.closed) then old(zlib)
                      else if request.closing then old(zlib).(ops := old(zlib.ops) + [Close], closed := true)
                      else if old(request.flushing && !zlib.flushed) then Zlib(old(zlib.ops) + [Flush], true, false)
                      else old(zlib)
    {
      if request.closing {
        if !zlib.closed {
          StreamOfClose(codec, metadata, zlib, streamed, h.Current(), request.bytesRead, reader.sent, reader.told);
          if DrainedTo(codec, zlib, buffer, metricsBuffer, requestSize) {
            ClosedDrained(codec, zlib, buffer, metricsBuffer, requestSize);
          }
          zlib := zlib.(ops := zlib.ops + [Close], closed := true);
        }
      } else if request.flushing && !zlib.flushed {
        StreamOfFlush(codec, metadata, zlib, streamed, h.Current(), request.closing, request.bytesRead, reader.sent, reader.told);
        zlib := Zlib(zlib.ops + [Flush], true, false);
        request := request.(flushing := false);
      }
    }

    /** All of an iteration that concerns the encoder. */
    method Encode() returns (ghost k: nat)
      requires Valid() && request.active
      modifies this`buffer, this`metricsBuffer, this`zlib, this`request, this`counts, this`h, this`streamed
      ensures Valid() && Busy() && (old(request.flushing) && !zlib.closed ==> zlib.flushed)
      ensures |metricsBuffer| <= |old(metricsBuffer)| && (k > 0 ==> metricsBuffer == [])
      ensures Line(streamed, metricsBuffer, buffer) == old(Line(streamed, metricsBuffer, buffer))
      ensures h == Leaving(old(h), Streamed(|h.results|), k) && k + |buffer| == |old(buffer)|
      ensures old(zlib.closed) ==> k == 0 && zlib == old(zlib)
      ensures old(zlib.closed) || DrainedTo(codec, zlib, buffer, metricsBuffer, requestSize)
      ensures old(request.closing) ==> request.closing
      ensures request == old(request).(flushing := request.flushing, closing := request.closing, metricsets := request.metricsets)
    {
      k := Fill();
      Finish();
    }

    /** Sends the next bytes of the encoder's output to the request held. */
    method Respond(data: seq<byte>, end: bool)
      requires Streaming() && Reading() && request.active && zlib.closed == request.closing && req.Some?
      requires IsNext(codec, zlib, request.bytesRead, data) && end == (request.closing && |data| == BufLen())
      modifies this`req, this`request, reader`resp, reader`sent, reader`told
      ensures Streaming() && Reading() && req == None && reader.resp == Some(Responded(data, end))
      ensures request == old(request).(bytesRead := old(request.bytesRead) + |data|) && reader.told == end
    {
      StreamOfRead(codec, metadata, zlib, streamed, h.Current(), request.closing, request.bytesRead, reader.sent, reader.told, data);
      reader.Respond(data, end);
      req := None;
      request := request.(bytesRead := request.bytesRead + |data|);
    }

    /** Responds to the request held, if the encoder has produced more than its header, with as
        much as fits and was not sent yet; and tells the end with the last bytes of all. */
    method Reply()
      requires Valid() && request.active && Busy()
      modifies this`req, this`request, reader`resp, reader`sent, reader`told
      ensures Valid() && Busy() && request == old(request).(bytesRead := request.bytesRead)
      ensures var n, all := old(request.bytesRead), codec(zlib.ops);
              if old(req).None? || |all| == n || |all| <= ZLIB_HEADER_LEN then
                req == old(req) && request.bytesRead == n && reader.resp == old(reader.resp)
              else
                var n' := if n + old(req).value < |all| then n + old(req).value else |all|;
                && req == None && request.bytesRead == n'
                && reader.resp == Some(Responded(all[n..n'], request.closing && n' == |all|))
    {
      if req == None || BufLen() == 0 {
        return;
      }
      if request.bytesRead + BufLen() > ZLIB_HEADER_LEN {
        var n := if req.value < BufLen() then req.value else BufLen();
        Respond(codec(zlib.ops)[request.bytesRead..request.bytesRead + n], request.closing && BufLen() - n == 0);
      }
    }

    /** The rest of an iteration for an active request. */
    method Serve() returns (ghost k: nat)
      requires Valid() && request.active && stats == NO_STATS
      modifies this`buffer, this`metricsBuffer, this`zlib, this`request, this`counts, this`h, this`streamed, this`req, reader`resp, reader`sent, reader`told
      ensures Valid() && Settled() && request.active && (old(request.flushing) && !zlib.closed ==> zlib.flushed)
      ensures h == Leaving(old(h), Streamed(|h.results|), k) && k + |buffer| == |old(buffer)|
      ensures Line(streamed, metricsBuffer, buffer) == old(Line(streamed, metricsBuffer, buffer))
      ensures old(request.closing) ==> request.closing
      ensures old(zlib.closed) ==> k == 0
      ensures old(zlib.closed) || DrainedTo(codec, zlib, buffer, metricsBuffer, requestSize)
    {
      k := Encode();
      Reply();
    }

    /** The beginning of the tail: publishes the statistics, and asks for a request if there is
        something to send and none is active. */
    method Begin() returns (ready: bool)
      requires Valid()
      modifies this`stats, this`published, this`zlib, this`request, this`streamed
      ensures Valid()
      ensures stats == NO_STATS && published == Accumulated(old(published), old(stats))
      ensures ready == old(request.active || buffer != [] || metricsBuffer != []) == request.active
      ensures ready ==> streamed == if old(request.active) then old(streamed) else []
      ensures ready ==> zlib.closed == old(request.active && zlib.closed)
      ensures request == if old(request.active) || !ready then old(request) else old(request).(active := true, timer := true)
    {
      hide History.Kept, MetricsFit, Streams, Serves;
      Accumulate();
      if !request.active {
        if buffer == [] && metricsBuffer == [] {
          return false;
        }
        Start();
      }
      return true;
    }

    /** What follows the select in each iteration. */
    method Tail() returns (ghost k: nat)
      requires Valid()
      requires !request.active && buffer == [] && metricsBuffer == [] ==> Idle()
      modifies this`stats, this`published, this`buffer, this`metricsBuffer, this`zlib, this`request, this`counts, this`h, this`streamed,
               this`req, reader`resp, reader`sent, reader`told
      ensures Valid() && Settled()
      ensures old(request.flushing) && request.active && !zlib.closed ==> zlib.flushed
      ensures request.active && old(request.closing) ==> zlib.closed
      ensures h == Leaving(old(h), Streamed(|h.results|), k) && k + |buffer| == |old(buffer)|
      ensures published == Accumulated(old(published), old(stats))
      ensures request.active <==> old(request.active || buffer != [] || metricsBuffer != [])
      ensures old(request.active && zlib.closed) ==> k == 0
      ensures old(request.active && zlib.closed) || DrainedTo(codec, zlib, buffer, metricsBuffer, requestSize)
      ensures request.active ==>
                Line(streamed, metricsBuffer, buffer) ==
                Line(if old(request.active) then old(streamed) else [], old(metricsBuffer), old(buffer))
    {
      hide History.Kept, MetricsFit, Streams, Serves;
      k := 0;
      var ready := Begin();
      if ready {
        k := Serve();
      }
    }

    // ----- the cases of the select -----

    method Store(b: Block)
      requires Valid() && stats == NO_STATS && IsEvent(b.tag)
      modifies this`buffer, this`stats, this`h
      ensures Valid() && stats.SentAs(NO_STATS) && h == Stored(old(h), old(buffer), b, bufferSize)
      ensures b.Size() <= bufferSize ==> buffer != []
      ensures b.Size() > bufferSize ==> buffer == old(buffer) && stats == NO_STATS
    {
      hide History.Kept, MetricsFit, Streams, Serves;
      WriteEvent(b);
    }

    /** An error asks for a flush. */
    method MarkFlushing(asked: bool)
      requires Valid()
      modifies this`request
      ensures Valid() && request == old(request).(flushing := old(request.flushing) || asked)
    {
      request := request.(flushing := request.flushing || asked);
    }

    method Take(b: Block)
      requires Valid() && stats == NO_STATS && IsEvent(b.tag)
      modifies this`buffer, this`stats, this`h, this`request
      ensures Valid() && stats.SentAs(NO_STATS) && h == Stored(old(h), old(buffer), b, bufferSize)
      ensures b.Size() <= bufferSize ==> buffer != []
      ensures b.Size() > bufferSize ==> buffer == old(buffer) && stats == NO_STATS
      ensures request == old(request).(flushing := old(request.flushing) || b.tag == ERROR_BLOCK_TAG)
    {
      Store(b);
      MarkFlushing(b.tag == ERROR_BLOCK_TAG);
    }

    /** An event, encoded.  An error is flushed at once: it is in the stream with everything
        before it, up to a Flush of the encoder, unless the request was closed off. */
    method OnEvent(b: Block) returns (ghost k: nat)
      requires Valid() && Settled() && !stopped && IsEvent(b.tag)
      modifies this`stats, this`published, this`buffer, this`metricsBuffer, this`zlib, this`request, this`counts, this`h, this`streamed,
               this`req, reader`resp, reader`sent, reader`told
      ensures Valid() && Settled() && published.SentAs(old(published))
      ensures b.Size() <= bufferSize ==> request.active
      ensures h == Leaving(Stored(old(h), old(buffer), b, bufferSize), Streamed(|h.results|), k)
      ensures b.tag == ERROR_BLOCK_TAG && request.active && !zlib.closed ==> buffer == [] && zlib.flushed
      ensures old(request.active) ==> request.active
    {
      hide History.Kept, MetricsFit, Streams, Serves;
      Take(b);
      k := Tail();
    }

    method OnRequestTimer() returns (ghost k: nat)
      requires Valid() && Settled() && !stopped && request.timer
      modifies this`stats, this`published, this`buffer, this`metricsBuffer, this`zlib, this`request, this`counts, this`h, this`streamed,
               this`req, reader`resp, reader`sent, reader`told
      ensures Valid() && Settled() && published.SentAs(old(published)) && request.active && zlib.closed
      ensures h == Leaving(old(h), Streamed(|h.results|), k)
    {
      hide History.Kept, MetricsFit;
      request := request.(timer := false, closing := true);
      k := Tail();
    }

    /** The cases that concern none of this state: the server version, and profiling. */
    method OnOther() returns (ghost k: nat)
      requires Valid() && Settled() && !stopped
      modifies this`stats, this`published, this`buffer, this`metricsBuffer, this`zlib, this`request, this`counts, this`h, this`streamed,
               this`req, reader`resp, reader`sent, reader`told
      ensures Valid() && Settled() && published.SentAs(old(published))
      ensures h == Leaving(old(h), Streamed(|h.results|), k)
      ensures old(request.active) ==> request.active
    {
      hide History.Kept, MetricsFit, Streams, Serves;
      k := Tail();
    }

    /** A caller of SendMetrics; what was gathered comes later. */
    method OnSendMetrics() returns (ghost k: nat)
      requires Valid() && Settled() && !stopped
      modifies this`sentMetrics, this`stats, this`published, this`buffer, this`metricsBuffer, this`zlib, this`request, this`counts,
               this`h, this`streamed, this`req, reader`resp, reader`sent, reader`told
      ensures Valid() && Settled() && published.SentAs(old(published)) && sentMetrics
      ensures h == Leaving(old(h), Streamed(|h.results|), k)
      ensures old(request.active) ==> request.active
    {
      hide History.Kept, MetricsFit, Streams, Serves;
      sentMetrics := true;
      k := Tail();
    }

    method OnGatheredMetrics(metrics: seq<Block>) returns (ghost k: nat)
      requires Valid() && Settled() && !stopped && forall b :: b in metrics ==> b.tag == METRICS_BLOCK_TAG
      modifies this`stats, this`published, this`buffer, this`metricsBuffer, this`zlib, this`request, this`counts, this`h, this`streamed,
               this`req, reader`resp, reader`sent, reader`told
      ensures Valid() && Settled() && published.SentAs(old(published))
      ensures h == Leaving(old(h), Streamed(|h.results|), k)
      ensures request.active ==>
                Line(streamed, metricsBuffer, buffer) ==
                Line(if old(request.active) then old(streamed) else [],
                     PushedTo(old(metricsBuffer), metrics, |metrics|, metricsBufferSize), old(buffer))
      ensures request.active && !zlib.closed ==> metricsBuffer == [] && zlib.flushed
      ensures old(request.active) ==> request.active
    {
      hide History.Kept, Streams, Serves, PushedTo;
      WriteAllMetrics(metrics);
      request := request.(flushing := true);
      k := Tail();
    }

    method WriteEvents(events: seq<Block>)
      requires EventsKept() && stats == NO_STATS && forall b :: b in events ==> IsEvent(b.tag)
      modifies this`buffer, this`stats, this`h
      ensures EventsKept() && h.Current() == old(h.Current()) && stats.SentAs(NO_STATS)
      ensures h == StoredTo(old(h), events, |events|, bufferSize)
      ensures (buffer == [] ==> stats == NO_STATS) && (events == [] ==> buffer == old(buffer))
    {
      for i := 0 to |events|
        invariant EventsKept() && h.Current() == old(h.Current()) && stats.SentAs(NO_STATS)
        invariant h == StoredTo(old(h), events, i, bufferSize) && buffer == h.Held()
        invariant (buffer == [] ==> stats == NO_STATS) && (i == 0 ==> buffer == old(buffer))
      {
        assert events[i] in events;
        WriteEvent(events[i]);
      }
    }

    /** The draining of the event channel. */
    method TakeAll(events: seq<Block>)
      requires Valid() && stats == NO_STATS && forall b :: b in events ==> IsEvent(b.tag)
      modifies this`buffer, this`stats, this`h
      ensures Valid() && stats.SentAs(NO_STATS)
      ensures h == StoredTo(old(h), events, |events|, bufferSize)
      ensures (buffer == [] ==> stats == NO_STATS) && (events == [] ==> buffer == old(buffer))
    {
      WriteEvents(events);
    }

    method AskFlush(id: nat)
      requires Valid()
      modifies this`flushed, this`waiting
      ensures Valid() && flushed == Some(id) && waiting
    {
      flushed := Some(id);
      waiting := true;
    }

    /** The answer if there is nothing to send: the caller's channel is kept all the same. */
    method AnswerFlush() returns (idle: bool)
      requires Valid() && (!request.active ==> !request.closing) && (buffer == [] ==> stats == NO_STATS)
      modifies this`request, this`waiting
      ensures Valid() && idle == (!request.active && buffer == [] && metricsBuffer == []) && (idle ==> Settled())
      ensures waiting == (old(waiting) && !idle)
      ensures request == if idle then old(request) else old(request).(closing := true)
    {
      idle := !request.active && buffer == [] && metricsBuffer == [];
      if idle {
        waiting := false;
      } else {
        request := request.(closing := true);
      }
    }

    /** The draining of the event channel when a Flush comes, and the answer. */
    method TakeFlush(events: seq<Block>, id: nat) returns (idle: bool)
      requires Valid() && stats == NO_STATS && (!request.active ==> !request.closing)
      requires forall b :: b in events ==> IsEvent(b.tag)
      modifies this`buffer, this`stats, this`h, this`request, this`flushed, this`waiting
      ensures Valid() && stats.SentAs(NO_STATS) && flushed == Some(id) && waiting == !idle
      ensures h == StoredTo(old(h), events, |events|, bufferSize)
      ensures idle == (!request.active && buffer == [] && metricsBuffer == []) && (idle ==> Settled())
      ensures events == [] ==> buffer == old(buffer)
      ensures request == if idle then old(request) else old(request).(closing := true)
    {
      AskFlush(id);
      TakeAll(events);
      idle := AnswerFlush();
    }

    /** A caller of Flush, and the events in the channel then.  If there is nothing to send it
        is notified at once, and yet remembered.  Otherwise the request is closed off in this
        iteration, and its result notifies the last one to call Flush.  By then both rings are
        empty, unless the request was closed off before, and then nothing more is sent by it, or
        its output has reached the limit. */
    method OnForceFlush(events: seq<Block>, id: nat) returns (notify: Option<nat>, ghost k: nat)
      requires Valid() && Settled() && !stopped && forall b :: b in events ==> IsEvent(b.tag)
      modifies this`flushed, this`waiting, this`stats, this`published, this`buffer, this`metricsBuffer, this`zlib, this`request,
               this`counts, this`h, this`streamed, this`req, reader`resp, reader`sent, reader`told
      ensures Valid() && Settled() && published.SentAs(old(published))
      ensures h == Leaving(StoredTo(old(h), events, |events|, bufferSize), Streamed(|h.results|), k)
      ensures flushed == Some(id) && notify == if request.active then None else Some(id)
      ensures (old(request.active) ==> request.active) && (events == [] && request.active ==> old(request.active))
      ensures if request.active then zlib.closed && waiting else buffer == [] && metricsBuffer == [] && k == 0
      ensures old(request.active && zlib.closed) ==> k == 0
      ensures old(request.active && zlib.closed) || DrainedTo(codec, zlib, buffer, metricsBuffer, requestSize)
    {
      hide History.Kept, MetricsFit, Streams, Serves;
      k := 0;
      var idle := TakeFlush(events, id);
      if idle {
        notify := Some(id);
      } else {
        notify := None;
        k := Tail();
      }
    }

    /** The reader hands over a read request. */
    method OnRead() returns (ghost k: nat)
      requires Valid() && Settled() && !stopped && reader.client.Offering?
      modifies this`stats, this`published, this`buffer, this`metricsBuffer, this`zlib, this`request, this`counts, this`h, this`streamed,
               this`req, reader`client, reader`resp, reader`sent, reader`told
      ensures Valid() && Settled() && published.SentAs(old(published)) && h == Leaving(old(h), Streamed(|h.results|), k)
      ensures old(request.active) ==> request.active
    {
      hide History.Kept, MetricsFit, Streams;
      var cap := reader.Receive();
      req := Some(cap);
      k := Tail();
    }

    /** Closes the reader of the request that has ended, and makes one for the next. */
    method NewReader()
      requires reader.Valid()
      modifies this`reader, this`req, reader`readClosed
      ensures reader.Valid() && reader.client.Idle? && !reader.readClosed && fresh(reader) && req == None
      ensures reader.sent == [] && !reader.told
      ensures old(reader).readClosed && !old(reader).Owed()
    {
      if req.Some? {
        req := None;
      }
      reader.CloseRead();
      reader := new Reader();
    }

    /** Whom the result of a request notifies. */
    method NotifyCallers(metricsets: nat) returns (notify: Option<nat>)
      modifies this`sentMetrics, this`flushed, this`waiting
      ensures flushed == None && !waiting && notify == old(flushed)
      ensures sentMetrics == (old(sentMetrics) && metricsets == 0)
    {
      if sentMetrics && metricsets > 0 {
        sentMetrics := false;
      }
      notify := flushed;
      flushed := None;
      waiting := false;
    }

    /** The statistics of a result: only a good one counts its events as sent. */
    method CountResult(ok: bool)
      requires EventsKept() && request.active && stats == NO_STATS
      modifies this`stats, this`published, this`request, this`counts, this`h
      ensures EventsKept() && stats == NO_STATS && request == NO_REQUEST && h == old(h).Ended(ok)
      ensures published == Accumulated(old(published), Resulting(ok, NO_STATS, old(counts)))
    {
      h.KeptByResult(buffer, bufferSize, stats, published, counts, ok);
      stats := if ok then stats.AddSent(counts) else stats.(sendErrors := stats.sendErrors + 1);
      h := h.Ended(ok);
      request, counts := NO_REQUEST, NO_COUNTS;
      Accumulate();
    }

    /** Everything about the request that has ended is reset. */
    method Conclude(ok: bool) returns (notify: Option<nat>)
      requires EventsKept() && request.active && stats == NO_STATS
      modifies this`sentMetrics, this`flushed, this`waiting, this`stats, this`published, this`zlib, this`request, this`counts,
               this`h
      ensures EventsKept() && stats == NO_STATS && request == NO_REQUEST && h == old(h).Ended(ok) && zlib.ops == []
      ensures flushed == None && !waiting && notify == old(flushed)
      ensures published == Accumulated(old(published), Resulting(ok, NO_STATS, old(counts)))
    {
      notify := NotifyCallers(request.metricsets);
      CountResult(ok);
      zlib := zlib.(ops := []);
    }

    method EndRequest(ok: bool) returns (notify: Option<nat>)
      requires Valid() && request.active && stats == NO_STATS && !stopped
      modifies this`sentMetrics, this`flushed, this`waiting, this`stats, this`published, this`zlib, this`request, this`counts, this`h,
               this`req, this`reader, reader`readClosed
      ensures Valid() && stats == NO_STATS && request == NO_REQUEST && h == old(h).Ended(ok)
      ensures flushed == None && !waiting && notify == old(flushed)
      ensures published == Accumulated(old(published), Resulting(ok, NO_STATS, old(counts)))
      ensures fresh(reader) && reader.client.Idle?
      ensures old(reader).readClosed && !old(reader).Owed()
    {
      hide History.Kept, MetricsFit, Streams;
      LawfulStream(codec, metadata, zlib, streamed, h.Current(), request.active, request.closing, request.bytesRead,
                   reader.sent, reader.told);
      notify := Conclude(ok);
      NewReader();
      StreamOfNone(codec, metadata, zlib, streamed, h.Current(), request.closing);
    }

    /** The result of the request: only a good one counts its events as sent, and the reader
        that belonged to it is closed and never responded to again. */
    method OnResult(ok: bool) returns (notify: Option<nat>, ghost k: nat)
      requires Valid() && Settled() && !stopped && request.active
      modifies this`sentMetrics, this`flushed, this`waiting, this`stats, this`published, this`buffer, this`metricsBuffer,
               this`zlib, this`request, this`counts, this`h, this`streamed, this`req, this`reader, reader`readClosed
      ensures Valid() && Settled()
      ensures h == Leaving(old(h).Ended(ok), Streamed(|h.results|), k)
      ensures published == Accumulated(old(published), Resulting(ok, NO_STATS, old(counts)))
      ensures notify == old(flushed) && flushed == None
      ensures fresh(reader) && old(reader).readClosed
    {
      notify := EndRequest(ok);
      k := Tail();
    }

    method OnConfig(requestSize: int)
      requires Valid() && Settled() && !stopped
      modifies this`requestSize
      ensures Valid() && Settled() && this.requestSize == requestSize
    {
      this.requestSize := requestSize;
    }

    /** The loop returns; a request that is still held gets the reader's error. */
    method OnClosing()
      requires Valid() && Settled() && !stopped
      modifies this`stopped, this`req, reader`readClosed
      ensures Valid() && Settled() && stopped && reader.readClosed
    {
      hide History.Kept, MetricsFit, Streams;
      reader.CloseRead();
      req := None;
      stopped := true;
    }

    // ----- the transport, which reads the request's body -----

    method BeginRead(cap: nat)
      requires Valid() && reader.client.Idle? && !reader.writeClosed
      modifies reader`client, reader`begun
      ensures Valid() && reader.client == Offering(cap)
    {
      reader.BeginRead(cap);
    }

    method EndRead() returns (o: Outcome)
      requires Valid() && reader.client.Awaiting? && !reader.Owed()
      modifies reader`client, reader`resp, reader`log
      ensures Valid() && reader.client.Idle? && reader.log == old(reader.log) + [o]
      ensures o == if old(reader.resp).Some? then old(reader.resp).value else ReadClosed
    {
      o := reader.EndRead();
    }
  }

  /** Between iterations, for each kind of event: all that were handed to the ring buffer are in
      it, or in the active request, or published as Sent, or published as Dropped, or went
      to a request that failed, or were too large. */
  lemma EventsAccounted(l: Loop, tag: byte)
    requires l.Valid() && l.Settled() && IsEvent(tag)
    ensures l.buffer == l.h.accepted[|l.h.fates|..]
    ensures Tagged(l.h.handed, |l.h.handed|, tag) ==
            Tagged(l.buffer, |l.buffer|, tag) + l.counts.Of(tag) + l.published.Sent(tag) + l.published.Dropped(tag) +
            l.h.Count(ToFailure(l.h.results), tag) + Tagged(l.h.tooLarge, |l.h.tooLarge|, tag)
    ensures l.h.tooLarge == Oversized(l.h.handed, |l.h.handed|, l.bufferSize)
  {
    l.h.Conserved(l.buffer, l.bufferSize, l.request.active, l.stats, l.published, l.counts, tag);
  }

  /** For the active request: what the Reads have brought is a prefix of the encoder's output
      for the metadata and the streamed blocks, which are this request's events in the order
      in which they left the ring buffer, and metricsets; and a response tells the end exactly
      when the encoder is closed and all of its output was sent. */
  lemma ReadsArePrefix(l: Loop)
    requires l.Valid() && l.request.active
    ensures Data(l.reader.log) <= l.reader.sent <= l.codec(l.zlib.ops)
    ensures Raw(l.zlib.ops) == l.metadata + Lines(l.streamed) && EventsOf(l.streamed) == l.h.Current()
    ensures l.reader.told <==> l.zlib.closed && l.reader.sent == l.codec(l.zlib.ops)
    ensures l.reader.told <==> EndIn(l.reader.log) || (l.reader.resp.Some? && IsEnd(l.reader.resp.value))
    ensures ClosedOnce(l.zlib.ops, l.zlib.closed)
  {
    ReadsGetWhatWasSent(l.reader);
  }

  method ResultAfterEvent(l: Loop, b: Block) returns (notify: Option<nat>)
    requires l.Valid() && l.Settled() && !l.stopped && IsEvent(b.tag) && b.Size() <= l.bufferSize
    modifies l, l.reader
    ensures notify == old(l.flushed)
  {
    var _ := l.OnEvent(b);
    var n, _ := l.OnResult(true);
    notify := n;
  }

  /** A Flush that finds nothing to send is notified, and again by the next result. */
  method FlushNotifiedTwice(l: Loop, b: Block, id: nat) returns (first: Option<nat>, second: Option<nat>)
    requires l.Valid() && l.Settled() && !l.stopped && !l.request.active && IsEvent(b.tag) && b.Size() <= l.bufferSize
    modifies l, l.reader
    ensures first == second == Some(id)
  {
    var f, _ := l.OnForceFlush([], id);
    first := f;
    second := ResultAfterEvent(l, b);
  }

  /** A Flush that waits when another one comes is not notified by the result. */
  method FlushOvertaken(l: Loop, ok: bool, id: nat) returns (first: Option<nat>, second: Option<nat>)
    requires l.Valid() && l.Settled() && !l.stopped && l.waiting && l.flushed != Some(id)
    modifies l, l.reader
    ensures old(l.flushed).Some? && first != old(l.flushed) && second != old(l.flushed) && l.flushed == None
  {
    var f, _ := l.OnForceFlush([], id);
    first := f;
    var s, _ := l.OnResult(ok);
    second := s;
  }

  /** A Flush while the active request is closed off already: its result notifies the caller,
      though the event that was queued is in the ring still, or in the next request. */
  method FlushReturnsEarly(l: Loop, b: Block, id: nat) returns (notify: Option<nat>)
    requires l.Valid() && l.Settled() && !l.stopped && l.request.active && l.zlib.closed
    requires IsEvent(b.tag) && b.Size() <= l.bufferSize
    modifies l, l.reader
    ensures notify == Some(id) && l.Valid() && LastUnsent(l.h, b)
  {
    hide Loop.Valid, Loop.Settled;
    FatesOfAccepted(l);
    StoredWaits(l.h, b, l.bufferSize);
    var first, _ := l.OnForceFlush([b], id);
    ghost var h := l.h;
    var n, k := l.OnResult(true);
    notify := n;
    FatesOfAccepted(l);
    LeavingCount(h.Ended(true), Streamed(|l.h.results|), k);
    WaitingIsUnsent(h, true, k, b);
  }

  lemma FatesOfAccepted(l: Loop)
    requires l.Valid()
    ensures |l.h.fates| <= |l.h.accepted|
  {
  }

  /** And so it is for the second of two Flushes in a row, whatever came before. */
  method SecondFlushReturnsEarly(l: Loop, a: Block, b: Block, id: nat) returns (notify: Option<nat>)
    requires l.Valid() && l.Settled() && !l.stopped
    requires IsEvent(a.tag) && a.Size() <= l.bufferSize && IsEvent(b.tag) && b.Size() <= l.bufferSize
    modifies l, l.reader
    ensures notify == Some(id + 1) && l.Valid() && LastUnsent(l.h, b)
  {
    hide Loop.Valid, Loop.Settled;
    var _ := l.OnEvent(a);
    var first, _ := l.OnForceFlush([], id);
    notify := FlushReturnsEarly(l, b, id + 1);
  }
}
