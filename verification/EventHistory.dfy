/** What became of every event handed to the tracer's loop, and what a request's stream is
    made of: definitions on values, and what each step of the loop does to them. */
module EventHistory {
  import opened Basics
  import opened RingBuffer

  const TRANSACTION_BLOCK_TAG: byte := 1
  const SPAN_BLOCK_TAG: byte := 2
  const ERROR_BLOCK_TAG: byte := 3
  const METRICS_BLOCK_TAG: byte := 4
  const ZLIB_HEADER_LEN := 2
  const NEWLINE: seq<byte> := [10]

  predicate IsEvent(tag: byte) {
    tag == TRANSACTION_BLOCK_TAG || tag == SPAN_BLOCK_TAG || tag == ERROR_BLOCK_TAG
  }

  // ----- counters -----

  /** The active request's counters. */
  datatype Counts = Counts(transactions: nat, spans: nat, errors: nat) {
    function Of(tag: byte): nat {
      if tag == TRANSACTION_BLOCK_TAG then transactions
      else if tag == SPAN_BLOCK_TAG then spans
      else errors
    }

    function Inc(tag: byte): Counts {
      if tag == TRANSACTION_BLOCK_TAG then this.(transactions := transactions + 1)
      else if tag == SPAN_BLOCK_TAG then this.(spans := spans + 1)
      else if tag == ERROR_BLOCK_TAG then this.(errors := errors + 1)
      else this
    }
  }

  const NO_COUNTS := Counts(0, 0, 0)

  /** The loop's variables about the request: whether there is one, whether it is to be closed
      or flushed, whether its timer runs, how many metricsets were streamed to it, and how
      many bytes of the encoder's output were read. */
  datatype Request = Request(active: bool, closing: bool, flushing: bool, timer: bool, metricsets: nat, bytesRead: nat) {
    /** Streaming leaves alone whether there is a request, its timer, and what was read. */
    predicate Steady(r: Request) {
      active == r.active && flushing == r.flushing && timer == r.timer && bytesRead == r.bytesRead
    }
  }

  const NO_REQUEST := Request(false, false, false, false, 0, 0)

  /** TracerStats, as far as the loop changes it. */
  datatype Stats = Stats(transactionsSent: nat, spansSent: nat, errorsSent: nat,
                         transactionsDropped: nat, spansDropped: nat, errorsDropped: nat, sendErrors: nat) {
    function Sent(tag: byte): nat {
      if tag == TRANSACTION_BLOCK_TAG then transactionsSent
      else if tag == SPAN_BLOCK_TAG then spansSent
      else errorsSent
    }

    function Dropped(tag: byte): nat {
      if tag == TRANSACTION_BLOCK_TAG then transactionsDropped
      else if tag == SPAN_BLOCK_TAG then spansDropped
      else errorsDropped
    }

    predicate SentAs(s: Stats) {
      transactionsSent == s.transactionsSent && spansSent == s.spansSent && errorsSent == s.errorsSent
    }

    function AddSent(c: Counts): Stats {
      this.(transactionsSent := transactionsSent + c.transactions, spansSent := spansSent + c.spans,
            errorsSent := errorsSent + c.errors)
    }

    function IncDropped(tag: byte): Stats {
      if tag == TRANSACTION_BLOCK_TAG then this.(transactionsDropped := transactionsDropped + 1)
      else if tag == SPAN_BLOCK_TAG then this.(spansDropped := spansDropped + 1)
      else if tag == ERROR_BLOCK_TAG then this.(errorsDropped := errorsDropped + 1)
      else this
    }

    function Plus(s: Stats): Stats {
      Stats(transactionsSent + s.transactionsSent, spansSent + s.spansSent, errorsSent + s.errorsSent,
            transactionsDropped + s.transactionsDropped, spansDropped + s.spansDropped,
            errorsDropped + s.errorsDropped, sendErrors + s.sendErrors)
    }
  }

  /** What a result adds to the statistics. */
  function Resulting(ok: bool, stats: Stats, counts: Counts): Stats {
    if ok then stats.AddSent(counts) else stats.(sendErrors := stats.sendErrors + 1)
  }

  const NO_STATS := Stats(0, 0, 0, 0, 0, 0, 0)

  /** The published statistics after the loop's own were added to them. */
  function Accumulated(published: Stats, stats: Stats): Stats {
    if stats == NO_STATS then published else published.Plus(stats)
  }

  /** A bad result counts nothing as sent. */
  lemma BadResultKeepsSent(published: Stats, counts: Counts)
    ensures Accumulated(published, Resulting(false, NO_STATS, counts)).SentAs(published)
  {
  }

  // ----- where events go -----

  /** How many of the first n blocks have this tag. */
  function Tagged(blocks: seq<Block>, n: nat, tag: byte): nat
    requires n <= |blocks|
  {
    if n == 0 then 0 else Tagged(blocks, n - 1, tag) + if blocks[n - 1].tag == tag then 1 else 0
  }

  lemma {:induction false} TaggedSplit(blocks: seq<Block>, k: nat, n: nat, tag: byte)
    requires k <= n <= |blocks|
    ensures Tagged(blocks, n, tag) == Tagged(blocks, k, tag) + Tagged(blocks[k..], n - k, tag)
  {
    if n > k {
      TaggedSplit(blocks, k, n - 1, tag);
    }
  }

  lemma {:induction false} TaggedPrefix(a: seq<Block>, b: seq<Block>, n: nat, tag: byte)
    requires n <= |a|
    ensures Tagged(a + b, n, tag) == Tagged(a, n, tag)
  {
    if n > 0 {
      TaggedPrefix(a, b, n - 1, tag);
    }
  }

  /** Of the first n blocks, those that fit into a ring buffer of this capacity. */
  function Fitting(blocks: seq<Block>, n: nat, cap: nat): seq<Block>
    requires n <= |blocks|
  {
    if n == 0 then [] else Fitting(blocks, n - 1, cap) + if blocks[n - 1].Size() <= cap then [blocks[n - 1]] else []
  }

  /** And those that are too large for it. */
  function Oversized(blocks: seq<Block>, n: nat, cap: nat): seq<Block>
    requires n <= |blocks|
  {
    if n == 0 then [] else Oversized(blocks, n - 1, cap) + if blocks[n - 1].Size() <= cap then [] else [blocks[n - 1]]
  }

  lemma {:induction false} SortedOutPrefix(a: seq<Block>, b: seq<Block>, n: nat, cap: nat)
    requires n <= |a|
    ensures Fitting(a + b, n, cap) == Fitting(a, n, cap) && Oversized(a + b, n, cap) == Oversized(a, n, cap)
  {
    if n > 0 {
      SortedOutPrefix(a, b, n - 1, cap);
    }
  }

  lemma {:induction false} SortedOutCounts(blocks: seq<Block>, n: nat, cap: nat, tag: byte)
    requires n <= |blocks|
    ensures var f, o := Fitting(blocks, n, cap), Oversized(blocks, n, cap);
            Tagged(blocks, n, tag) == Tagged(f, |f|, tag) + Tagged(o, |o|, tag)
  {
    if n > 0 {
      SortedOutCounts(blocks, n - 1, cap, tag);
      var f, o := Fitting(blocks, n - 1, cap), Oversized(blocks, n - 1, cap);
      TaggedPrefix(f, [blocks[n - 1]], |f|, tag);
      TaggedPrefix(o, [blocks[n - 1]], |o|, tag);
      assert f + [] == f && o + [] == o;
    }
  }

  datatype Fate = Evicted | Streamed(request: nat)

  /** Which fates to count: evictions, those of one request, those of requests that went
      well, or those of requests that did not. */
  datatype Query = ToEviction | ToRequest(r: nat) | ToSuccess(results: seq<bool>) | ToFailure(results: seq<bool>) {
    predicate Asks(f: Fate) {
      match this
      case ToEviction => f.Evicted?
      case ToRequest(r) => f == Streamed(r)
      case ToSuccess(results) => f.Streamed? && f.request < |results| && results[f.request]
      case ToFailure(results) => f.Streamed? && f.request < |results| && !results[f.request]
    }
  }

  /** The events handed to the ring buffer, in order; of these, those accepted and those too
      large for it; the fates of the accepted ones that left it again, the i-th being that of
      the i-th accepted; and the results of the requests so far. */
  datatype History = History(handed: seq<Block>, accepted: seq<Block>, tooLarge: seq<Block>, fates: seq<Fate>, results: seq<bool>) {
    function Refused(b: Block): History {
      this.(handed := handed + [b], tooLarge := tooLarge + [b])
    }

    function Accepted(b: Block): History {
      this.(handed := handed + [b], accepted := accepted + [b])
    }

    /** The oldest one in the ring buffer leaves it. */
    function Gone(fate: Fate): History {
      this.(fates := fates + [fate])
    }

    function Ended(ok: bool): History {
      this.(results := results + [ok])
    }

    /** How many of the first n have this tag and a fate that q asks for. */
    function CountTo(n: nat, q: Query, tag: byte): nat
      requires n <= |fates| <= |accepted|
    {
      if n == 0 then 0
      else CountTo(n - 1, q, tag) + if q.Asks(fates[n - 1]) && accepted[n - 1].tag == tag then 1 else 0
    }

    function Count(q: Query, tag: byte): nat
      requires |fates| <= |accepted|
    {
      CountTo(|fates|, q, tag)
    }

    function StreamedTo(n: nat, r: nat): seq<Block>
      requires n <= |fates| <= |accepted|
    {
      if n == 0 then []
      else StreamedTo(n - 1, r) + if fates[n - 1] == Streamed(r) then [accepted[n - 1]] else []
    }

    /** The events of the active request, or of the next one. */
    function Current(): seq<Block> {
      if |fates| <= |accepted| then StreamedTo(|fates|, |results|) else []
    }

    /** What is in the ring buffer. */
    function Held(): seq<Block> {
      if |fates| <= |accepted| then accepted[|fates|..] else []
    }

    // ----- the parts of the invariant -----

    /** Just those too large are not accepted. */
    ghost predicate SortedOut(cap: nat) {
      accepted == Fitting(handed, |handed|, cap) && tooLarge == Oversized(handed, |handed|, cap)
    }

    /** The ring buffer holds what has not left, and only events get in. */
    ghost predicate Queued(buffer: seq<Block>, cap: nat) {
      && |fates| <= |accepted| && buffer == accepted[|fates|..]
      && TotalSize(buffer) <= cap
      && forall b :: b in accepted ==> IsEvent(b.tag)
    }

    /** Only the first n requests were streamed to. */
    ghost predicate Assigned(n: nat) {
      forall f :: f in fates && f.Streamed? ==> f.request < n
    }

    /** The statistics and the active request's counters say where the departed went. */
    ghost predicate Counted(stats: Stats, published: Stats, current: Counts)
      requires |fates| <= |accepted|
    {
      forall tag :: IsEvent(tag) ==>
        && stats.Sent(tag) + published.Sent(tag) == Count(ToSuccess(results), tag)
        && stats.Dropped(tag) + published.Dropped(tag) == Count(ToEviction, tag)
        && current.Of(tag) == Count(ToRequest(|results|), tag)
    }

    /** All that relates the history to the loop's variables. */
    ghost predicate Kept(buffer: seq<Block>, cap: nat, active: bool, stats: Stats, published: Stats, current: Counts) {
      && SortedOut(cap)
      && Queued(buffer, cap)
      && Assigned(|results| + if active then 1 else 0)
      && Counted(stats, published, current)
    }

    // ----- what the steps do -----

    /** A longer history says the same of what was before. */
    lemma {:induction false} Longer(h: History, n: nat, q: Query, tag: byte, r: nat)
      requires accepted <= h.accepted && fates <= h.fates && n <= |fates| <= |accepted| && |h.fates| <= |h.accepted|
      ensures h.CountTo(n, q, tag) == CountTo(n, q, tag) && h.StreamedTo(n, r) == StreamedTo(n, r)
    {
      if n > 0 {
        Longer(h, n - 1, q, tag, r);
      }
    }

    lemma GoneCounts(fate: Fate, q: Query, tag: byte, r: nat)
      requires |fates| < |accepted|
      ensures Gone(fate).Count(q, tag) ==
              Count(q, tag) + if q.Asks(fate) && accepted[|fates|].tag == tag then 1 else 0
      ensures Gone(fate).StreamedTo(|fates| + 1, r) ==
              StreamedTo(|fates|, r) + if fate == Streamed(r) then [accepted[|fates|]] else []
    {
      Longer(Gone(fate), |fates|, q, tag, r);
    }

    lemma GoneQueued(fate: Fate, buffer: seq<Block>, cap: nat)
      requires Queued(buffer, cap) && buffer != []
      ensures |fates| < |accepted| && accepted[|fates|] == buffer[0] && IsEvent(buffer[0].tag)
      ensures Gone(fate).Queued(buffer[1..], cap)
    {
      assert buffer[0] in accepted;
    }

    /** When request |results| ends, its blocks move to the successes or to the failures. */
    lemma {:induction false} CountResult(n: nat, ok: bool, tag: byte)
      requires n <= |fates| <= |accepted|
      ensures CountTo(n, ToSuccess(results + [ok]), tag) ==
              CountTo(n, ToSuccess(results), tag) + if ok then CountTo(n, ToRequest(|results|), tag) else 0
      ensures CountTo(n, ToFailure(results + [ok]), tag) ==
              CountTo(n, ToFailure(results), tag) + if ok then 0 else CountTo(n, ToRequest(|results|), tag)
    {
      if n > 0 {
        CountResult(n - 1, ok, tag);
      }
    }

    /** Nothing has gone to a request that has not begun. */
    lemma {:induction false} NoneOfFuture(n: nat, r: nat, tag: byte)
      requires Assigned(r) && n <= |fates| <= |accepted|
      ensures CountTo(n, ToRequest(r), tag) == 0 && StreamedTo(n, r) == []
    {
      if n > 0 {
        assert fates[n - 1] in fates;
        NoneOfFuture(n - 1, r, tag);
      }
    }

    /** Each fate is exactly one of the four. */
    lemma {:induction false} CountPartition(n: nat, tag: byte)
      requires Assigned(|results| + 1) && n <= |fates| <= |accepted|
      ensures Tagged(accepted, n, tag) ==
              CountTo(n, ToEviction, tag) + CountTo(n, ToSuccess(results), tag) +
              CountTo(n, ToFailure(results), tag) + CountTo(n, ToRequest(|results|), tag)
    {
      if n > 0 {
        assert fates[n - 1] in fates;
        CountPartition(n - 1, tag);
      }
    }

    /** Conservation, for each kind of event: all that were handed to the ring buffer are in it,
        or in the active request, or were counted Sent, or counted Dropped by eviction, or
        went to a request that failed, or were too large. */
    lemma Conserved(buffer: seq<Block>, cap: nat, active: bool, stats: Stats, published: Stats, current: Counts, tag: byte)
      requires Kept(buffer, cap, active, stats, published, current) && IsEvent(tag)
      ensures Tagged(handed, |handed|, tag) ==
              Tagged(buffer, |buffer|, tag) + current.Of(tag) +
              (stats.Sent(tag) + published.Sent(tag)) + (stats.Dropped(tag) + published.Dropped(tag)) +
              Count(ToFailure(results), tag) + Tagged(tooLarge, |tooLarge|, tag)
    {
      hide CountTo, Tagged, Fitting, Oversized, TotalSize, Stats.Sent, Stats.Dropped, Counts.Of;
      SortedOutCounts(handed, |handed|, cap, tag);
      CountPartition(|fates|, tag);
      TaggedSplit(accepted, |fates|, |accepted|, tag);
    }

    lemma KeptByRefusal(buffer: seq<Block>, cap: nat, active: bool, stats: Stats, published: Stats, current: Counts, b: Block)
      requires Kept(buffer, cap, active, stats, published, current) && b.Size() > cap
      ensures Refused(b).Kept(buffer, cap, active, stats, published, current) && Refused(b).Current() == Current()
    {
      hide CountTo;
      forall tag | IsEvent(tag)
        ensures Refused(b).Count(ToSuccess(results), tag) == Count(ToSuccess(results), tag)
        ensures Refused(b).Count(ToEviction, tag) == Count(ToEviction, tag)
        ensures Refused(b).Count(ToRequest(|results|), tag) == Count(ToRequest(|results|), tag)
      {
        Longer(Refused(b), |fates|, ToSuccess(results), tag, 0);
        Longer(Refused(b), |fates|, ToEviction, tag, 0);
        Longer(Refused(b), |fates|, ToRequest(|results|), tag, 0);
      }
      Longer(Refused(b), |fates|, ToEviction, 0, |results|);
      SortedOutPrefix(handed, [b], |handed|, cap);
    }

    lemma AcceptedSortedOut(cap: nat, b: Block)
      requires SortedOut(cap) && b.Size() <= cap
      ensures Accepted(b).SortedOut(cap)
    {
      SortedOutPrefix(handed, [b], |handed|, cap);
    }

    lemma AcceptedQueued(buffer: seq<Block>, cap: nat, b: Block)
      requires Queued(buffer, cap) && IsEvent(b.tag) && TotalSize(buffer) + b.Size() <= cap
      ensures Accepted(b).Queued(buffer + [b], cap)
    {
      TotalSizeAppend(buffer, [b]);
      assert [b][1..] == [];
      assert (accepted + [b])[|fates|..] == accepted[|fates|..] + [b];
    }

    lemma KeptByAccepting(buffer: seq<Block>, cap: nat, active: bool, stats: Stats, published: Stats, current: Counts, b: Block)
      requires Kept(buffer, cap, active, stats, published, current)
      requires IsEvent(b.tag) && TotalSize(buffer) + b.Size() <= cap
      ensures Accepted(b).Kept(buffer + [b], cap, active, stats, published, current) && Accepted(b).Current() == Current()
    {
      hide CountTo, SortedOut, TotalSize, StreamedTo;
      AcceptedSortedOut(cap, b);
      AcceptedQueued(buffer, cap, b);
      forall tag | IsEvent(tag)
        ensures Accepted(b).Count(ToSuccess(results), tag) == Count(ToSuccess(results), tag)
        ensures Accepted(b).Count(ToEviction, tag) == Count(ToEviction, tag)
        ensures Accepted(b).Count(ToRequest(|results|), tag) == Count(ToRequest(|results|), tag)
      {
        Longer(Accepted(b), |fates|, ToSuccess(results), tag, 0);
        Longer(Accepted(b), |fates|, ToEviction, tag, 0);
        Longer(Accepted(b), |fates|, ToRequest(|results|), tag, 0);
      }
      Longer(Accepted(b), |fates|, ToEviction, 0, |results|);
    }

    lemma KeptByEviction(buffer: seq<Block>, cap: nat, active: bool, stats: Stats, published: Stats, current: Counts)
      requires Kept(buffer, cap, active, stats, published, current) && buffer != []
      ensures Gone(Evicted).Kept(buffer[1..], cap, active, stats.IncDropped(buffer[0].tag), published, current)
      ensures Gone(Evicted).Current() == Current()
    {
      GoneQueued(Evicted, buffer, cap);
      forall tag | IsEvent(tag)
        ensures Gone(Evicted).Count(ToSuccess(results), tag) == Count(ToSuccess(results), tag)
        ensures Gone(Evicted).Count(ToEviction, tag) == Count(ToEviction, tag) + if buffer[0].tag == tag then 1 else 0
        ensures Gone(Evicted).Count(ToRequest(|results|), tag) == Count(ToRequest(|results|), tag)
      {
        GoneCounts(Evicted, ToSuccess(results), tag, 0);
        GoneCounts(Evicted, ToEviction, tag, 0);
        GoneCounts(Evicted, ToRequest(|results|), tag, 0);
      }
      GoneCounts(Evicted, ToEviction, 0, |results|);
    }

    lemma KeptByStreaming(buffer: seq<Block>, cap: nat, stats: Stats, published: Stats, current: Counts)
      requires Kept(buffer, cap, true, stats, published, current) && buffer != []
      ensures IsEvent(buffer[0].tag)
      ensures Gone(Streamed(|results|)).Kept(buffer[1..], cap, true, stats, published, current.Inc(buffer[0].tag))
      ensures Gone(Streamed(|results|)).Current() == Current() + [buffer[0]]
    {
      var fate := Streamed(|results|);
      GoneQueued(fate, buffer, cap);
      forall tag | IsEvent(tag)
        ensures Gone(fate).Count(ToSuccess(results), tag) == Count(ToSuccess(results), tag)
        ensures Gone(fate).Count(ToEviction, tag) == Count(ToEviction, tag)
        ensures Gone(fate).Count(ToRequest(|results|), tag) ==
                Count(ToRequest(|results|), tag) + if buffer[0].tag == tag then 1 else 0
      {
        GoneCounts(fate, ToSuccess(results), tag, 0);
        GoneCounts(fate, ToEviction, tag, 0);
        GoneCounts(fate, ToRequest(|results|), tag, 0);
      }
      GoneCounts(fate, ToEviction, 0, |results|);
    }

    lemma KeptByPublishing(buffer: seq<Block>, cap: nat, active: bool, stats: Stats, published: Stats, current: Counts)
      requires Kept(buffer, cap, active, stats, published, current)
      ensures Kept(buffer, cap, active, NO_STATS, published.Plus(stats), current)
    {
    }

    /** A new request has nothing yet. */
    lemma KeptByStart(buffer: seq<Block>, cap: nat, stats: Stats, published: Stats, current: Counts)
      requires Kept(buffer, cap, false, stats, published, current)
      ensures Kept(buffer, cap, true, stats, published, current)
      ensures Current() == []
    {
      NoneOfFuture(|fates|, |results|, 0);
    }

    /** A result moves the request's counts to Sent, or leaves them to the failures. */
    lemma KeptByResult(buffer: seq<Block>, cap: nat, stats: Stats, published: Stats, current: Counts, ok: bool)
      requires Kept(buffer, cap, true, stats, published, current)
      ensures Ended(ok).Kept(buffer, cap, false, Resulting(ok, stats, current), published, NO_COUNTS)
    {
      var h := Ended(ok);
      forall tag | IsEvent(tag)
        ensures h.Count(ToSuccess(h.results), tag) == Count(ToSuccess(results), tag) + if ok then current.Of(tag) else 0
        ensures h.Count(ToEviction, tag) == Count(ToEviction, tag)
        ensures h.Count(ToRequest(|h.results|), tag) == 0
      {
        CountResult(|fates|, ok, tag);
        Longer(h, |fates|, ToSuccess(h.results), tag, 0);
        Longer(h, |fates|, ToEviction, tag, 0);
        h.NoneOfFuture(|fates|, |results| + 1, tag);
      }
    }
  }

  const NO_HISTORY := History([], [], [], [], [])

  lemma NothingYet(cap: nat)
    ensures NO_HISTORY.Kept([], cap, false, NO_STATS, NO_STATS, NO_COUNTS)
  {
  }

  // ----- the encoder -----

  datatype Op = Write(p: seq<byte>) | Flush | Close

  /** The output for what was done since the last Reset. */
  type Codec = seq<Op> -> seq<byte>

  /** Output only ever grows, and closing emits at least one byte. */
  ghost predicate Lawful(codec: Codec) {
    && codec([]) == []
    && (forall ops, op {:trigger codec(ops + [op])} ::
          && codec(ops) <= codec(ops + [op])
          && (op == Close ==> |codec(ops)| < |codec(ops + [op])|))
  }

  /** Close comes at most once, last, and has come exactly when `closed`. */
  ghost predicate ClosedOnce(ops: seq<Op>, closed: bool) {
    && (closed ==> ops != [] && ops[|ops| - 1] == Close)
    && forall i :: 0 <= i < |ops| - (if closed then 1 else 0) ==> ops[i] != Close
  }

  /** What was done to the zlib writer since its last Reset, and the loop's two flags about it.
      The bytes.Buffer requestBuf holds its output but for the bytes that were read. */
  datatype Zlib = Zlib(ops: seq<Op>, flushed: bool, closed: bool) {
    /** A block and a newline. */
    function Block(b: Block): Zlib {
      Zlib(ops + [Write(b.data)] + [Write(NEWLINE)], false, closed)
    }
  }

  /** What was done to it before it was closed, if it was. */
  function Body(z: Zlib): seq<Op> {
    if z.closed && z.ops != [] then z.ops[..|z.ops| - 1] else z.ops
  }

  /** Both rings are empty, or else the output had reached the limit before the stream was closed. */
  predicate DrainedTo(codec: Codec, z: Zlib, buffer: seq<Block>, metrics: seq<Block>, limit: int) {
    (buffer == [] && metrics == []) || |codec(Body(z))| >= limit
  }

  lemma ClosedDrained(codec: Codec, z: Zlib, buffer: seq<Block>, metrics: seq<Block>, limit: int)
    requires !z.closed && DrainedTo(codec, z, buffer, metrics, limit)
    ensures DrainedTo(codec, z.(ops := z.ops + [Close], closed := true), buffer, metrics, limit)
  {
    assert Body(z.(ops := z.ops + [Close], closed := true)) == z.ops;
  }

  function RawTo(ops: seq<Op>, n: nat): seq<byte>
    requires n <= |ops|
  {
    if n == 0 then [] else RawTo(ops, n - 1) + if ops[n - 1].Write? then ops[n - 1].p else []
  }

  /** The uncompressed stream. */
  function Raw(ops: seq<Op>): seq<byte> {
    RawTo(ops, |ops|)
  }

  lemma {:induction false} RawPrefix(a: seq<Op>, b: seq<Op>, n: nat)
    requires n <= |a|
    ensures RawTo(a + b, n) == RawTo(a, n)
  {
    if n > 0 {
      RawPrefix(a, b, n - 1);
    }
  }

  lemma RawAppend(ops: seq<Op>, op: Op)
    ensures Raw(ops + [op]) == Raw(ops) + if op.Write? then op.p else []
  {
    RawPrefix(ops, [op], |ops|);
  }

  // ----- the stream -----

  function LinesTo(blocks: seq<Block>, n: nat): seq<byte>
    requires n <= |blocks|
  {
    if n == 0 then [] else LinesTo(blocks, n - 1) + blocks[n - 1].data + NEWLINE
  }

  /** Blocks as they go into the stream, each on a line of its own. */
  function Lines(blocks: seq<Block>): seq<byte> {
    LinesTo(blocks, |blocks|)
  }

  function EventsTo(blocks: seq<Block>, n: nat): seq<Block>
    requires n <= |blocks|
  {
    if n == 0 then [] else EventsTo(blocks, n - 1) + if IsEvent(blocks[n - 1].tag) then [blocks[n - 1]] else []
  }

  /** The events among the blocks of a stream. */
  function EventsOf(blocks: seq<Block>): seq<Block> {
    EventsTo(blocks, |blocks|)
  }

  lemma {:induction false} BlockPrefix(a: seq<Block>, b: seq<Block>, n: nat)
    requires n <= |a|
    ensures LinesTo(a + b, n) == LinesTo(a, n) && EventsTo(a + b, n) == EventsTo(a, n)
  {
    if n > 0 {
      BlockPrefix(a, b, n - 1);
    }
  }

  lemma BlockAppend(blocks: seq<Block>, b: Block)
    ensures Lines(blocks + [b]) == Lines(blocks) + b.data + NEWLINE
    ensures EventsOf(blocks + [b]) == EventsOf(blocks) + if IsEvent(b.tag) then [b] else []
  {
    BlockPrefix(blocks, [b], |blocks|);
  }

  /** The active request's stream.  Ahead of the encoder it is the metadata, then each
      streamed block and a newline, where the events streamed are those that left the ring
      buffer for this request.  Behind the encoder, the bytes sent are the first n of its
      output, and the end was told exactly when these are all and the encoder is closed. */
  ghost predicate Flows(codec: Codec, metadata: seq<byte>, ops: seq<Op>, streamed: seq<Block>, events: seq<Block>,
                        flushed: bool, closed: bool, n: nat, sent: seq<byte>, eof: bool) {
    && Raw(ops) == metadata + Lines(streamed)
    && EventsOf(streamed) == events
    && ClosedOnce(ops, closed)
    && (flushed && !closed ==> ops != [] && ops[|ops| - 1] == Flush)
    && n <= |codec(ops)| && sent == codec(ops)[..n]
    && (eof <==> closed && n == |codec(ops)|)
  }

  /** The stream of the active request, if there is one, and a fresh encoder if not; once it
      is closed the request is to be closed. */
  ghost predicate Streams(codec: Codec, metadata: seq<byte>, z: Zlib, streamed: seq<Block>, events: seq<Block>,
                          active: bool, closing: bool, n: nat, sent: seq<byte>, eof: bool) {
    && Lawful(codec)
    && if active then
         Flows(codec, metadata, z.ops, streamed, events, z.flushed, z.closed, n, sent, eof) && (z.closed ==> closing)
       else
         z.ops == [] && n == 0 && sent == [] && !eof
  }

  /** Appending to the encoder keeps what was sent a prefix of its output. */
  lemma OutputGrows(codec: Codec, ops: seq<Op>, op: Op, n: nat)
    requires Lawful(codec) && n <= |codec(ops)|
    ensures n <= |codec(ops + [op])| && codec(ops)[..n] == codec(ops + [op])[..n]
    ensures op == Close ==> n < |codec(ops + [op])|
  {
    assert codec(ops) <= codec(ops + [op]);
  }

  lemma LawfulStream(codec: Codec, metadata: seq<byte>, z: Zlib, streamed: seq<Block>, events: seq<Block>,
                     active: bool, closing: bool, n: nat, sent: seq<byte>, eof: bool)
    requires Streams(codec, metadata, z, streamed, events, active, closing, n, sent, eof)
    ensures Lawful(codec)
  {
  }

  lemma StreamOfNone(codec: Codec, metadata: seq<byte>, z: Zlib, streamed: seq<Block>, events: seq<Block>, closing: bool)
    requires Lawful(codec) && z.ops == []
    ensures Streams(codec, metadata, z, streamed, events, false, closing, 0, [], false)
  {
  }

  lemma StreamBegins(codec: Codec, metadata: seq<byte>, z: Zlib, streamed: seq<Block>, events: seq<Block>,
                     closing: bool, n: nat, sent: seq<byte>, eof: bool)
    requires Streams(codec, metadata, z, streamed, events, false, closing, n, sent, eof)
    ensures Streams(codec, metadata, Zlib([Write(metadata)], false, false), [], [], true, closing, n, sent, eof)
  {
    RawAppend([], Write(metadata));
    assert [] + [Write(metadata)] == [Write(metadata)];
  }

  lemma StreamOfBlock(codec: Codec, metadata: seq<byte>, z: Zlib, streamed: seq<Block>, events: seq<Block>,
                      closing: bool, n: nat, sent: seq<byte>, eof: bool, b: Block)
    requires Streams(codec, metadata, z, streamed, events, true, closing, n, sent, eof) && !z.closed
    ensures Streams(codec, metadata, z.Block(b), streamed + [b], events + (if IsEvent(b.tag) then [b] else []),
                    true, closing, n, sent, eof)
  {
    var ops1 := z.ops + [Write(b.data)];
    RawAppend(z.ops, Write(b.data));
    RawAppend(ops1, Write(NEWLINE));
    BlockAppend(streamed, b);
    assert metadata + (Lines(streamed) + b.data + NEWLINE) == metadata + Lines(streamed) + b.data + NEWLINE;
    OutputGrows(codec, z.ops, Write(b.data), n);
    OutputGrows(codec, ops1, Write(NEWLINE), n);
  }

  lemma StreamOfFlush(codec: Codec, metadata: seq<byte>, z: Zlib, streamed: seq<Block>, events: seq<Block>,
                      closing: bool, n: nat, sent: seq<byte>, eof: bool)
    requires Streams(codec, metadata, z, streamed, events, true, closing, n, sent, eof) && !z.closed
    ensures Streams(codec, metadata, Zlib(z.ops + [Flush], true, false), streamed, events, true, closing, n, sent, eof)
  {
    RawAppend(z.ops, Flush);
    OutputGrows(codec, z.ops, Flush, n);
  }

  /** Closing leaves at least one byte to send, so the end is still to be told. */
  lemma StreamOfClose(codec: Codec, metadata: seq<byte>, z: Zlib, streamed: seq<Block>, events: seq<Block>,
                      n: nat, sent: seq<byte>, eof: bool)
    requires Streams(codec, metadata, z, streamed, events, true, true, n, sent, eof) && !z.closed
    ensures Streams(codec, metadata, z.(ops := z.ops + [Close], closed := true), streamed, events, true, true, n, sent, eof)
    ensures !eof && n < |codec(z.ops + [Close])|
  {
    RawAppend(z.ops, Close);
    OutputGrows(codec, z.ops, Close, n);
  }

  /** The next bytes of the encoder's output. */
  ghost predicate IsNext(codec: Codec, z: Zlib, n: nat, data: seq<byte>) {
    n + |data| <= |codec(z.ops)| && data == codec(z.ops)[n..n + |data|]
  }

  lemma StreamOfRead(codec: Codec, metadata: seq<byte>, z: Zlib, streamed: seq<Block>, events: seq<Block>,
                     closing: bool, n: nat, sent: seq<byte>, eof: bool, data: seq<byte>)
    requires Streams(codec, metadata, z, streamed, events, true, closing, n, sent, eof)
    requires IsNext(codec, z, n, data) && closing == z.closed
    ensures Streams(codec, metadata, z, streamed, events, true, closing,
                    n + |data|, sent + data, closing && n + |data| == |codec(z.ops)|)
  {
  }

  // ----- draining -----

  ghost predicate MetricsFit(metrics: seq<Block>, cap: nat) {
    TotalSize(metrics) <= cap && forall b :: b in metrics ==> b.tag == METRICS_BLOCK_TAG
  }

  lemma MetricsFitStill(metrics: seq<Block>, cap: nat)
    requires MetricsFit(metrics, cap) && metrics != []
    ensures MetricsFit(metrics[1..], cap) && !IsEvent(metrics[0].tag)
  {
    assert metrics[0] in metrics;
  }

  lemma MetricsFitPushed(metrics: seq<Block>, cap: nat, b: Block)
    requires MetricsFit(metrics, cap) && b.tag == METRICS_BLOCK_TAG && b.Size() <= cap
    ensures MetricsFit(Pushed(metrics, b, cap), cap)
  {
    PushedFits(metrics, b, cap);
  }

  /** The history after the k oldest blocks left the ring buffer, all the same way. */
  function Leaving(h: History, fate: Fate, k: nat): (h': History)
    ensures h' == h.(fates := h'.fates)
  {
    if k == 0 then h else Leaving(h, fate, k - 1).Gone(fate)
  }

  lemma LeavingKeeps(h: History, fate: Fate, k: nat)
    ensures Leaving(h, fate, k).handed == h.handed && Leaving(h, fate, k).results == h.results
  {
  }

  /** The last event that was accepted was not streamed to a request that has ended. */
  ghost predicate LastUnsent(h: History, b: Block) {
    && h.accepted != [] && h.accepted[|h.accepted| - 1] == b && |h.fates| <= |h.accepted|
    && (|h.fates| == |h.accepted| ==> h.fates[|h.fates| - 1] == Streamed(|h.results|))
  }

  lemma {:induction false} LeavingCount(h: History, fate: Fate, k: nat)
    ensures |Leaving(h, fate, k).fates| == |h.fates| + k
    ensures k > 0 ==> Leaving(h, fate, k).fates[|h.fates| + k - 1] == fate
  {
    if k > 0 {
      LeavingCount(h, fate, k - 1);
    }
  }

  /** An event that was stored is the last one in the ring. */
  lemma StoredWaits(h: History, b: Block, cap: nat)
    requires |h.fates| <= |h.accepted| && b.Size() <= cap
    ensures var g := StoredTo(h, [b], 1, cap);
            |g.fates| < |g.accepted| && g.accepted[|g.accepted| - 1] == b && g.results == h.results
  {
    LeavingCount(h, Evicted, EvictCount(h.Held(), b.Size(), cap));
  }

  /** An event that waits in the ring when a request ends is not sent by that request. */
  lemma WaitingIsUnsent(h: History, ok: bool, k: nat, b: Block)
    requires h.accepted != [] && h.accepted[|h.accepted| - 1] == b && |h.fates| < |h.accepted|
    requires |h.fates| + k <= |h.accepted|
    ensures LastUnsent(Leaving(h.Ended(ok), Streamed(|h.results| + 1), k), b)
  {
    LeavingCount(h.Ended(ok), Streamed(|h.results| + 1), k);
  }

  /** The history after b was handed to the ring buffer, which evicts as few as make room. */
  function Stored(h: History, buffer: seq<Block>, b: Block, cap: nat): History {
    if b.Size() > cap then h.Refused(b) else Leaving(h, Evicted, EvictCount(buffer, b.Size(), cap)).Accepted(b)
  }

  /** The history after the first n blocks were handed to it, one after another. */
  function StoredTo(h: History, blocks: seq<Block>, n: nat, cap: nat): History
    requires n <= |blocks|
  {
    if n == 0 then h
    else
      var g := StoredTo(h, blocks, n - 1, cap);
      Stored(g, g.Held(), blocks[n - 1], cap)
  }

  lemma OneIsHanded(h: History, buffer: seq<Block>, b: Block, cap: nat)
    ensures Stored(h, buffer, b, cap).handed == h.handed + [b] && Stored(h, buffer, b, cap).results == h.results
  {
  }

  lemma {:induction false} StoredIsHanded(h: History, blocks: seq<Block>, n: nat, cap: nat)
    requires n <= |blocks|
    ensures StoredTo(h, blocks, n, cap).handed == h.handed + blocks[..n]
    ensures StoredTo(h, blocks, n, cap).results == h.results
  {
    hide Stored;
    if n > 0 {
      StoredIsHanded(h, blocks, n - 1, cap);
      var g := StoredTo(h, blocks, n - 1, cap);
      OneIsHanded(g, g.Held(), blocks[n - 1], cap);
      assert blocks[..n] == blocks[..n - 1] + [blocks[n - 1]];
    } else {
      assert h.handed + blocks[..0] == h.handed;
    }
  }

  /** Metricsets pushed one after another; those too large are lost. */
  function PushedTo(q: seq<Block>, blocks: seq<Block>, n: nat, cap: nat): seq<Block>
    requires n <= |blocks|
  {
    if n == 0 then q
    else
      var q' := PushedTo(q, blocks, n - 1, cap);
      if blocks[n - 1].Size() > cap then q' else Pushed(q', blocks[n - 1], cap)
  }

  /** What was streamed, and behind it what is still to be: metricsets and then events. */
  function Line(streamed: seq<Block>, metrics: seq<Block>, buffer: seq<Block>): seq<Block> {
    streamed + metrics + buffer
  }

  lemma LineOfMetricset(streamed: seq<Block>, metrics: seq<Block>, buffer: seq<Block>)
    requires metrics != []
    ensures Line(streamed + [metrics[0]], metrics[1..], buffer) == Line(streamed, metrics, buffer)
  {
    assert metrics == [metrics[0]] + metrics[1..];
  }

  lemma LineOfEvent(streamed: seq<Block>, buffer: seq<Block>)
    requires buffer != []
    ensures Line(streamed + [buffer[0]], [], buffer[1..]) == Line(streamed, [], buffer)
  {
    assert streamed + [] == streamed;
    assert streamed + [buffer[0]] + [] == streamed + [buffer[0]];
    assert buffer == [buffer[0]] + buffer[1..];
  }

  /** What is left in the ring buffer then is its end, and nothing else has changed. */
  lemma {:induction false} LeavingLeaves(h: History, fate: Fate, k: nat)
    requires |h.fates| + k <= |h.accepted|
    ensures var h' := Leaving(h, fate, k);
            && h' == h.(fates := h'.fates) && |h'.fates| == |h.fates| + k && h.fates <= h'.fates
            && (forall i :: |h.fates| <= i < |h'.fates| ==> h'.fates[i] == fate)
            && h.accepted[|h'.fates|..] == h.accepted[|h.fates|..][k..]
  {
    if k > 0 {
      LeavingLeaves(h, fate, k - 1);
    }
  }

  // ----- between iterations -----

  /** The timer runs only for a request, and only the last caller of Flush waits. */
  ghost predicate Timely(r: Request, waiting: bool, flushed: Option<nat>) {
    (r.timer ==> r.active) && (waiting ==> flushed.Some?)
  }

  /** Blocks stay behind only because the active request is closed off. */
  ghost predicate BusyWith(r: Request, z: Zlib, buffer: seq<Block>, metrics: seq<Block>) {
    && z.closed == r.closing
    && (z.closed || (buffer == [] && metrics == []))
    && (r.flushing && !z.closed ==> z.flushed)
  }

  /** Without a request there is nothing to send, and no Flush waits. */
  ghost predicate IdleWith(r: Request, buffer: seq<Block>, metrics: seq<Block>, waiting: bool) {
    buffer == [] && metrics == [] && !r.closing && !waiting
  }

  ghost predicate AtRest(stats: Stats, r: Request, z: Zlib, buffer: seq<Block>, metrics: seq<Block>, waiting: bool) {
    stats == NO_STATS && if r.active then BusyWith(r, z, buffer, metrics) else IdleWith(r, buffer, metrics, waiting)
  }
}
