/** Whole runs of the tracer's loop (tracer.go): its cases in any order, interleaved in any way
    with the steps of the transport that reads the body of the active request, and with the
    callers of Flush that receive their notifications. */
module TracerInputs {
  import opened Basics
  import opened RingBuffer
  import opened EventHistory
  import opened FlushHistory

  datatype Input =
    | Event(b: Block)
    | Timer
    | SendMetrics
    | Gathered(metrics: seq<Block>)
    | ForceFlush(events: seq<Block>)
    | ReadRequest
    | RequestResult(ok: bool)
    | Config(requestSize: int)
    | Other
    | Closing
    | ClientReads(cap: nat)
    | ClientReturns
    | FlushReturns(flush: nat)

  /** The kinds of blocks that the writers of the channels put in them. */
  predicate Proper(input: Input) {
    match input
    case Event(b) => IsEvent(b.tag)
    case Gathered(metrics) => forall b :: b in metrics ==> b.tag == METRICS_BLOCK_TAG
    case ForceFlush(events) => forall b :: b in events ==> IsEvent(b.tag)
    case _ => true
  }

  /** The events that an input hands to the ring buffer. */
  function Brings(input: Input): seq<Block> {
    match input
    case Event(b) => [b]
    case ForceFlush(events) => events
    case _ => []
  }

  /** The loop has returned before the n-th input. */
  predicate Stopped(inputs: seq<Input>, n: nat)
    requires n <= |inputs|
  {
    n > 0 && (inputs[n - 1].Closing? || Stopped(inputs, n - 1))
  }

  function HandedBy(inputs: seq<Input>, i: nat): seq<Block>
    requires i < |inputs|
  {
    if Stopped(inputs, i) then [] else Brings(inputs[i])
  }

  /** All events that the first n inputs hand to the ring buffer. */
  function HandedTo(inputs: seq<Input>, n: nat): seq<Block>
    requires n <= |inputs|
  {
    if n == 0 then [] else HandedTo(inputs, n - 1) + HandedBy(inputs, n - 1)
  }

  /** What an input does to whether a request is active: only a result ends one, and an event
      that fits begins one. */
  predicate KeepsActive(input: Input, stopped: bool, active: bool, active': bool, cap: nat) {
    && (stopped ==> active' == active)
    && (active && !input.RequestResult? ==> active')
    && (!stopped && input.Event? && input.b.Size() <= cap ==> active')
    && (input == ForceFlush([]) && active' ==> active)
  }

  /** The moment that an input is in the history of Flush, given whether a request is active
      before and after it. */
  function MomentOf(input: Input, tr: seq<Moment>, active: bool, active': bool): seq<Moment> {
    match input
    case ForceFlush(_) => [Asked(!active')]
    case RequestResult(_) => if active then [Ended] else []
    case FlushReturns(i) => if Full(tr, |tr|, i) then [Received(i)] else []
    case _ => []
  }

  /** The history of Flush after the first n inputs. */
  function TraceTo(past: seq<Moment>, inputs: seq<Input>, active: seq<bool>, n: nat): seq<Moment>
    requires n <= |inputs| && n < |active|
  {
    if n == 0 then past
    else
      var tr := TraceTo(past, inputs, active, n - 1);
      tr + if Stopped(inputs, n - 1) && !inputs[n - 1].FlushReturns? then []
           else MomentOf(inputs[n - 1], tr, active[n - 1], active[n])
  }

  function ResultOf(input: Input): seq<bool> {
    if input.RequestResult? then [input.ok] else []
  }

  function ResultBy(inputs: seq<Input>, active: bool, i: nat): seq<bool>
    requires i < |inputs|
  {
    if active && !Stopped(inputs, i) then ResultOf(inputs[i]) else []
  }

  /** The results that came among the first n inputs. */
  function ResultsTo(inputs: seq<Input>, active: seq<bool>, n: nat): seq<bool>
    requires n <= |inputs| && n < |active|
  {
    if n == 0 then [] else ResultsTo(inputs, active, n - 1) + ResultBy(inputs, active[n - 1], n - 1)
  }

  lemma {:induction false} TraceOfMore(past: seq<Moment>, inputs: seq<Input>, active: seq<bool>, a: bool, n: nat)
    requires n <= |inputs| && n < |active|
    ensures TraceTo(past, inputs, active + [a], n) == TraceTo(past, inputs, active, n)
    ensures ResultsTo(inputs, active + [a], n) == ResultsTo(inputs, active, n)
  {
    if n > 0 {
      TraceOfMore(past, inputs, active, a, n - 1);
    }
  }

  /** Each of the first n inputs does as it should to whether a request is active. */
  ghost predicate AllKeepActive(inputs: seq<Input>, active: seq<bool>, n: nat, cap: nat)
    requires n <= |inputs| && n < |active|
  {
    forall i :: 0 <= i < n ==> KeepsActive(inputs[i], Stopped(inputs, i), active[i], active[i + 1], cap)
  }

  // ----- one input -----

  /** What of the loop the laws of runs are about. */
  datatype Snap = Snap(stopped: bool, active: bool, flushed: Option<nat>, published: Stats, h: History)

  /** What an input does that is taken, where a Flush is named id, with the notifications made. */
  ghost predicate Effect(input: Input, id: nat, cap: nat, s: Snap, s': Snap, notices: seq<nat>) {
    && s'.stopped == (s.stopped || input.Closing?)
    && (input != RequestResult(true) ==> s'.published.SentAs(s.published))
    && KeepsActive(input, s.stopped, s.active, s'.active, cap)
    && s'.h.handed == s.h.handed + Brings(input)
    && s'.h.results == s.h.results + ResultOf(input)
    && match input
       case ForceFlush(_) => s'.flushed == Some(id) && notices == if s'.active then [] else [id]
       case RequestResult(_) => s'.flushed == None && notices == if s.flushed.Some? then [s.flushed.value] else []
       case _ => s'.flushed == s.flushed && notices == []
  }

  /** The case of the select is ready, or the caller's step can be taken. */
  predicate MayTake(input: Input, s: Snap) {
    && (s.stopped ==> input.ClientReads? || input.ClientReturns? || input.FlushReturns?)
    && (input.RequestResult? ==> s.active)
  }

  predicate MaySkip(input: Input, s: Snap) {
    || (s.stopped && !input.FlushReturns?)
    || input.Timer? || input.ReadRequest? || input.ClientReads? || input.ClientReturns?
    || (input.RequestResult? && !s.active)
  }

  // ----- many inputs -----

  /** The history of Flush is that of the inputs, and says which Flush is pending. */
  ghost predicate Traced(past: seq<Moment>, inputs: seq<Input>, active: seq<bool>, n: nat, trace: seq<Moment>,
                         notices: seq<nat>, flushed: Option<nat>)
    requires n <= |inputs| && n < |active|
  {
    && trace == TraceTo(past, inputs, active, n)
    && flushed == Pending(trace, |trace|)
    && Notices(trace, |trace|) == Notices(past, |past|) + notices
  }

  /** The history of events is that of the inputs. */
  ghost predicate Handed(inputs: seq<Input>, active: seq<bool>, n: nat, h0: History, h: History)
    requires n <= |inputs| && n < |active|
  {
    && h.handed == h0.handed + HandedTo(inputs, n)
    && h.results == h0.results + ResultsTo(inputs, active, n)
  }

  /** What a run of n inputs has come to, from s0 to s. */
  ghost predicate Ran(past: seq<Moment>, inputs: seq<Input>, active: seq<bool>, n: nat, cap: nat,
                      trace: seq<Moment>, notices: seq<nat>, s0: Snap, s: Snap) {
    && n <= |inputs| && |active| == n + 1
    && active[0] == s0.active && active[n] == s.active
    && s.stopped == Stopped(inputs, n)
    && AllKeepActive(inputs, active, n, cap)
    && Traced(past, inputs, active, n, trace, notices, s.flushed)
    && Handed(inputs, active, n, s0.h, s.h)
    && (RequestResult(true) !in inputs ==> s.published.SentAs(s0.published))
  }

  lemma RanNothing(past: seq<Moment>, inputs: seq<Input>, cap: nat, s: Snap)
    requires !s.stopped && s.flushed == Pending(past, |past|)
    ensures Ran(past, inputs, [s.active], 0, cap, past, [], s, s)
  {
  }

  /** What a moment adds to the notifications. */
  lemma NoticesOfMoment(tr: seq<Moment>, m: Moment)
    ensures Pending(tr + [m], |tr| + 1) ==
            match m case Asked(_) => Some(|tr|) case Ended => None case Received(_) => Pending(tr, |tr|)
    ensures Notices(tr + [m], |tr| + 1) == Notices(tr, |tr|) +
            match m
            case Asked(idle) => if idle then [|tr|] else []
            case Ended => if Pending(tr, |tr|).Some? then [Pending(tr, |tr|).value] else []
            case Received(_) => []
  {
    PrefixMoments(tr, [m], |tr|);
  }

  /** What a moment, or none, does to the pending Flush and to the notifications. */
  ghost predicate Notifies(tr: seq<Moment>, moment: seq<Moment>, flushed: Option<nat>, flushed': Option<nat>,
                           more: seq<nat>) {
    if moment == [] then flushed' == flushed && more == []
    else
      && |moment| == 1
      && match moment[0]
         case Asked(idle) => flushed' == Some(|tr|) && more == if idle then [|tr|] else []
         case Ended => flushed' == None && more == if flushed.Some? then [flushed.value] else []
         case Received(_) => flushed' == flushed && more == []
  }

  lemma NotifiesOfMoment(past: seq<Moment>, tr: seq<Moment>, moment: seq<Moment>, flushed: Option<nat>,
                         flushed': Option<nat>, notices: seq<nat>, more: seq<nat>)
    requires flushed == Pending(tr, |tr|) && Notices(tr, |tr|) == Notices(past, |past|) + notices
    requires Notifies(tr, moment, flushed, flushed', more)
    ensures flushed' == Pending(tr + moment, |tr + moment|)
    ensures Notices(tr + moment, |tr + moment|) == Notices(past, |past|) + (notices + more)
  {
    if moment == [] {
      assert tr + moment == tr && notices + more == notices;
    } else {
      assert moment == [moment[0]];
      NoticesOfMoment(tr, moment[0]);
      Behind(Notices(past, |past|), notices, more);
    }
  }

  lemma EffectNotifies(input: Input, tr: seq<Moment>, cap: nat, s: Snap, s': Snap, more: seq<nat>)
    requires Effect(input, |tr|, cap, s, s', more) && MayTake(input, s)
    ensures Notifies(tr, MomentOf(input, tr, s.active, s'.active), s.flushed, s'.flushed, more)
  {
    hide KeepsActive, Full;
  }

  lemma TraceOfTaken(past: seq<Moment>, inputs: seq<Input>, active: seq<bool>, a: bool, n: nat, s: Snap)
    requires n < |inputs| && |active| == n + 1 && s.stopped == Stopped(inputs, n) && MayTake(inputs[n], s)
    ensures TraceTo(past, inputs, active + [a], n + 1) ==
            TraceTo(past, inputs, active, n) + MomentOf(inputs[n], TraceTo(past, inputs, active, n), active[n], a)
  {
    hide Full, Stopped;
    TraceOfMore(past, inputs, active, a, n);
    assert (active + [a])[n] == active[n];
  }

  lemma TracedOneMore(past: seq<Moment>, inputs: seq<Input>, active: seq<bool>, n: nat, trace: seq<Moment>,
                      notices: seq<nat>, s: Snap, s': Snap, cap: nat, more: seq<nat>)
    requires n < |inputs| && |active| == n + 1 && Traced(past, inputs, active, n, trace, notices, s.flushed)
    requires active[n] == s.active && s.stopped == Stopped(inputs, n)
    requires Effect(inputs[n], |trace|, cap, s, s', more) && MayTake(inputs[n], s)
    ensures Traced(past, inputs, active + [s'.active], n + 1, trace + MomentOf(inputs[n], trace, s.active, s'.active),
                   notices + more, s'.flushed)
  {
    hide Effect, Full, MomentOf, Notifies, Notices, Pending, Stopped, TraceTo;
    TraceOfTaken(past, inputs, active, s'.active, n, s);
    EffectNotifies(inputs[n], trace, cap, s, s', more);
    NotifiesOfMoment(past, trace, MomentOf(inputs[n], trace, s.active, s'.active), s.flushed, s'.flushed, notices, more);
  }

  lemma Behind<T>(a: seq<T>, b: seq<T>, c: seq<T>)
    ensures a + b + c == a + (b + c)
  {
  }

  lemma Nothing<T>(a: seq<T>)
    ensures a + [] == a
  {
  }

  lemma HandedOneMore(inputs: seq<Input>, active: seq<bool>, n: nat, a: bool, h0: History, h: History, h': History)
    requires n < |inputs| && |active| == n + 1 && Handed(inputs, active, n, h0, h)
    requires h'.handed == h.handed + HandedBy(inputs, n) && h'.results == h.results + ResultBy(inputs, active[n], n)
    ensures Handed(inputs, active + [a], n + 1, h0, h')
  {
    TraceOfMore([], inputs, active, a, n);
    Behind(h0.handed, HandedTo(inputs, n), HandedBy(inputs, n));
    Behind(h0.results, ResultsTo(inputs, active, n), ResultBy(inputs, active[n], n));
  }

  lemma RanTaken(past: seq<Moment>, inputs: seq<Input>, active: seq<bool>, n: nat, cap: nat, trace: seq<Moment>,
                 notices: seq<nat>, s0: Snap, s: Snap, s': Snap, more: seq<nat>)
    requires Ran(past, inputs, active, n, cap, trace, notices, s0, s) && n < |inputs|
    requires Effect(inputs[n], |trace|, cap, s, s', more) && MayTake(inputs[n], s)
    ensures Ran(past, inputs, active + [s'.active], n + 1, cap, trace + MomentOf(inputs[n], trace, s.active, s'.active),
                notices + more, s0, s')
  {
    TracedOneMore(past, inputs, active, n, trace, notices, s, s', cap, more);
    if s.stopped {
      Nothing(s.h.handed);
      Nothing(s.h.results);
    }
    HandedOneMore(inputs, active, n, s'.active, s0.h, s.h, s'.h);
    assert inputs[n] in inputs;
  }

  lemma RanSkipped(past: seq<Moment>, inputs: seq<Input>, active: seq<bool>, n: nat, cap: nat, trace: seq<Moment>,
                   notices: seq<nat>, s0: Snap, s: Snap)
    requires Ran(past, inputs, active, n, cap, trace, notices, s0, s) && n < |inputs| && MaySkip(inputs[n], s)
    ensures Ran(past, inputs, active + [s.active], n + 1, cap, trace, notices, s0, s)
  {
    TraceOfMore(past, inputs, active, s.active, n);
    Nothing(trace);
    Nothing(s.h.handed);
    Nothing(s.h.results);
    HandedOneMore(inputs, active, n, s.active, s0.h, s.h, s.h);
  }

  /** Of the first n inputs, no result that the loop took found the channel of the Flush that it
      would notify full. */
  ghost predicate AllHeard(past: seq<Moment>, inputs: seq<Input>, active: seq<bool>, n: nat)
    requires n <= |inputs| && n < |active|
  {
    forall i {:trigger TraceTo(past, inputs, active, i)} :: 0 <= i < n ==> Heard(past, inputs, active, i)
  }

  ghost predicate Heard(past: seq<Moment>, inputs: seq<Input>, active: seq<bool>, i: nat)
    requires i < |inputs| && i < |active|
  {
    inputs[i].RequestResult? && active[i] && !Stopped(inputs, i) ==> !Blocks(TraceTo(past, inputs, active, i))
  }

  lemma HeardNow(past: seq<Moment>, inputs: seq<Input>, active: seq<bool>, n: nat, cap: nat, trace: seq<Moment>,
                 notices: seq<nat>, s0: Snap, s: Snap)
    requires Ran(past, inputs, active, n, cap, trace, notices, s0, s) && n < |inputs|
    requires inputs[n].RequestResult? && s.active && !s.stopped ==> !Blocks(trace)
    ensures Heard(past, inputs, active, n)
  {
    hide AllKeepActive, Handed, Blocks, TraceTo, Stopped;
  }

  lemma HeardOneMore(past: seq<Moment>, inputs: seq<Input>, active: seq<bool>, a: bool, n: nat)
    requires n < |inputs| && |active| == n + 1 && AllHeard(past, inputs, active, n) && Heard(past, inputs, active, n)
    ensures AllHeard(past, inputs, active + [a], n + 1)
  {
    hide Stopped, TraceTo, Blocks;
    forall i | 0 <= i < n + 1
      ensures Heard(past, inputs, active + [a], i)
    {
      TraceOfMore(past, inputs, active, a, i);
      assert Heard(past, inputs, active, i);
    }
  }

  lemma NoEffect(input: Input, id: nat, cap: nat, s: Snap, s': Snap)
    requires s'.stopped == (s.stopped || input.Closing?) && s'.flushed == s.flushed && s'.published.SentAs(s.published)
    requires KeepsActive(input, s.stopped, s.active, s'.active, cap)
    requires s'.h.handed == s.h.handed && s'.h.results == s.h.results
    requires !input.Event? && !input.ForceFlush? && !input.RequestResult?
    ensures Effect(input, id, cap, s, s', [])
  {
    Nothing(s.h.handed);
    Nothing(s.h.results);
  }
}

module TracerRuns {
  import opened Basics
  import opened RingBuffer
  import opened IoChan
  import opened EventHistory
  import opened FlushHistory
  import opened TracerInputs
  import opened TracerLoop

  /** Whether the step can be taken: a case of the select is ready, or the transport's call
      can begin or return. */
  predicate Ready(l: Loop, input: Input)
    reads l, l.reader
  {
    match input
    case Timer => !l.stopped && l.request.timer
    case ReadRequest => !l.stopped && l.reader.client.Offering?
    case RequestResult(_) => !l.stopped && l.request.active
    case ClientReads(_) => l.reader.client.Idle? && !l.reader.writeClosed
    case ClientReturns => l.reader.client.Awaiting? && (l.reader.resp.Some? || l.reader.readClosed)
    case FlushReturns(_) => true
    case _ => !l.stopped
  }

  ghost function SnapOf(l: Loop): Snap
    reads l
  {
    Snap(l.stopped, l.request.active, l.flushed, l.published, l.h)
  }

  method TakeEvent(l: Loop, b: Block, id: nat)
    requires l.Valid() && l.Settled() && !l.stopped && IsEvent(b.tag)
    modifies l, l.reader
    ensures l.Valid() && l.Settled() && l.reader == old(l.reader)
    ensures Effect(Event(b), id, l.bufferSize, old(SnapOf(l)), SnapOf(l), [])
  {
    hide Loop.Valid, Loop.Settled;
    OneIsHanded(l.h, l.buffer, b, l.bufferSize);
    var _ := l.OnEvent(b);
  }

  method TakeMetrics(l: Loop, metrics: seq<Block>, id: nat)
    requires l.Valid() && l.Settled() && !l.stopped && Proper(Gathered(metrics))
    modifies l, l.reader
    ensures l.Valid() && l.Settled() && l.reader == old(l.reader)
    ensures Effect(Gathered(metrics), id, l.bufferSize, old(SnapOf(l)), SnapOf(l), [])
  {
    hide Loop.Valid, Loop.Settled;
    ghost var s := SnapOf(l);
    var _ := l.OnGatheredMetrics(metrics);
    NoEffect(Gathered(metrics), id, l.bufferSize, s, SnapOf(l));
  }

  method TakeSendMetrics(l: Loop, id: nat)
    requires l.Valid() && l.Settled() && !l.stopped
    modifies l, l.reader
    ensures l.Valid() && l.Settled() && l.reader == old(l.reader)
    ensures Effect(SendMetrics, id, l.bufferSize, old(SnapOf(l)), SnapOf(l), [])
  {
    hide Loop.Valid, Loop.Settled;
    ghost var s := SnapOf(l);
    var _ := l.OnSendMetrics();
    NoEffect(SendMetrics, id, l.bufferSize, s, SnapOf(l));
  }

  method TakeTimer(l: Loop, id: nat)
    requires l.Valid() && l.Settled() && !l.stopped && l.request.timer
    modifies l, l.reader
    ensures l.Valid() && l.Settled() && l.reader == old(l.reader)
    ensures Effect(Timer, id, l.bufferSize, old(SnapOf(l)), SnapOf(l), [])
  {
    hide Loop.Valid, Loop.Settled;
    ghost var s := SnapOf(l);
    var _ := l.OnRequestTimer();
    NoEffect(Timer, id, l.bufferSize, s, SnapOf(l));
  }

  method TakeRead(l: Loop, id: nat)
    requires l.Valid() && l.Settled() && !l.stopped && l.reader.client.Offering?
    modifies l, l.reader
    ensures l.Valid() && l.Settled() && l.reader == old(l.reader)
    ensures Effect(ReadRequest, id, l.bufferSize, old(SnapOf(l)), SnapOf(l), [])
  {
    hide Loop.Valid, Loop.Settled;
    ghost var s := SnapOf(l);
    var _ := l.OnRead();
    NoEffect(ReadRequest, id, l.bufferSize, s, SnapOf(l));
  }

  method TakeOther(l: Loop, id: nat)
    requires l.Valid() && l.Settled() && !l.stopped
    modifies l, l.reader
    ensures l.Valid() && l.Settled() && l.reader == old(l.reader)
    ensures Effect(Other, id, l.bufferSize, old(SnapOf(l)), SnapOf(l), [])
  {
    hide Loop.Valid, Loop.Settled;
    ghost var s := SnapOf(l);
    var _ := l.OnOther();
    NoEffect(Other, id, l.bufferSize, s, SnapOf(l));
  }

  method TakeConfig(l: Loop, requestSize: int, id: nat)
    requires l.Valid() && l.Settled() && !l.stopped
    modifies l, l.reader
    ensures l.Valid() && l.Settled() && l.reader == old(l.reader)
    ensures Effect(Config(requestSize), id, l.bufferSize, old(SnapOf(l)), SnapOf(l), [])
  {
    hide Loop.Valid, Loop.Settled;
    ghost var s := SnapOf(l);
    l.OnConfig(requestSize);
    NoEffect(Config(requestSize), id, l.bufferSize, s, SnapOf(l));
  }

  method TakeClosing(l: Loop, id: nat)
    requires l.Valid() && l.Settled() && !l.stopped
    modifies l, l.reader
    ensures l.Valid() && l.Settled() && l.reader == old(l.reader)
    ensures Effect(Closing, id, l.bufferSize, old(SnapOf(l)), SnapOf(l), [])
  {
    hide Loop.Valid, Loop.Settled;
    ghost var s := SnapOf(l);
    l.OnClosing();
    NoEffect(Closing, id, l.bufferSize, s, SnapOf(l));
  }

  /** The steps of others change nothing that the laws of runs are about. */
  method TakeClient(l: Loop, input: Input, id: nat)
    requires l.Valid() && l.Settled() && Ready(l, input)
    requires input.ClientReads? || input.ClientReturns? || input.FlushReturns?
    modifies l.reader
    ensures l.Valid() && l.Settled()
    ensures Effect(input, id, l.bufferSize, old(SnapOf(l)), SnapOf(l), [])
  {
    hide Loop.Valid, Loop.Settled;
    if input.ClientReads? {
      l.BeginRead(input.cap);
    } else if input.ClientReturns? {
      var _ := l.EndRead();
    }
    NoEffect(input, id, l.bufferSize, old(SnapOf(l)), SnapOf(l));
  }

  method TakeFlush(l: Loop, events: seq<Block>, id: nat) returns (notices: seq<nat>)
    requires l.Valid() && l.Settled() && !l.stopped && Proper(ForceFlush(events))
    modifies l, l.reader
    ensures l.Valid() && l.Settled() && l.reader == old(l.reader)
    ensures Effect(ForceFlush(events), id, l.bufferSize, old(SnapOf(l)), SnapOf(l), notices)
  {
    hide Loop.Valid, Loop.Settled;
    StoredIsHanded(l.h, events, |events|, l.bufferSize);
    assert events[..|events|] == events;
    var notify, _ := l.OnForceFlush(events, id);
    notices := if notify.Some? then [notify.value] else [];
    Nothing(l.h.results);
  }

  method TakeResult(l: Loop, ok: bool, id: nat) returns (notices: seq<nat>)
    requires l.Valid() && l.Settled() && !l.stopped && l.request.active
    modifies l, l.reader
    ensures l.Valid() && l.Settled() && fresh(l.reader)
    ensures Effect(RequestResult(ok), id, l.bufferSize, old(SnapOf(l)), SnapOf(l), notices)
  {
    hide Loop.Valid, Loop.Settled, Accumulated, Resulting, Leaving;
    BadResultKeepsSent(l.published, l.counts);
    ghost var h := l.h;
    var notify, k := l.OnResult(ok);
    LeavingKeeps(h.Ended(ok), Streamed(|l.h.results|), k);
    notices := if notify.Some? then [notify.value] else [];
    Nothing(l.h.handed);
  }

  /** Every input, taken when it is ready: only a good result counts events as sent; exactly the
      events that it brings are handed to the ring buffer; and a Flush is notified at once
      exactly if no request is active then, and the last one by a result. */
  method Take(l: Loop, input: Input, id: nat) returns (notices: seq<nat>)
    requires l.Valid() && l.Settled() && Proper(input) && Ready(l, input)
    modifies l, l.reader
    ensures l.Valid() && l.Settled() && (l.reader == old(l.reader) || fresh(l.reader))
    ensures Effect(input, id, l.bufferSize, old(SnapOf(l)), SnapOf(l), notices)
  {
    hide Loop.Valid, Loop.Settled;
    notices := [];
    match input {
      case Event(b) => TakeEvent(l, b, id);
      case Gathered(metrics) => TakeMetrics(l, metrics, id);
      case SendMetrics => TakeSendMetrics(l, id);
      case Timer => TakeTimer(l, id);
      case ReadRequest => TakeRead(l, id);
      case Other => TakeOther(l, id);
      case ForceFlush(events) => notices := TakeFlush(l, events, id);
      case RequestResult(ok) => notices := TakeResult(l, ok, id);
      case Config(requestSize) => TakeConfig(l, requestSize, id);
      case Closing => TakeClosing(l, id);
      case _ => TakeClient(l, input, id);
    }
  }

  /** What became of the events that were handed to the ring buffer. */
  ghost predicate Accounted(l: Loop, tag: byte)
    reads l
  {
    && |l.h.fates| <= |l.h.accepted| && l.buffer == l.h.accepted[|l.h.fates|..]
    && l.h.tooLarge == Oversized(l.h.handed, |l.h.handed|, l.bufferSize)
    && Tagged(l.h.handed, |l.h.handed|, tag) ==
       Tagged(l.buffer, |l.buffer|, tag) + l.counts.Of(tag) + l.published.Sent(tag) + l.published.Dropped(tag) +
       l.h.Count(ToFailure(l.h.results), tag) + Tagged(l.h.tooLarge, |l.h.tooLarge|, tag)
  }

  lemma AllAccounted(l: Loop)
    requires l.Valid() && l.Settled()
    ensures forall tag: byte :: IsEvent(tag) ==> Accounted(l, tag)
  {
    forall tag: byte | IsEvent(tag)
      ensures Accounted(l, tag)
    {
      EventsAccounted(l, tag);
    }
  }

  /** In every run, whatever comes in whatever order, wherever it stops: exactly the events of
      the inputs were handed to the ring buffer, and for each kind of event these are all
      accounted for; without a good result none is counted as sent; and the notifications are
      those of the history of Flush.  All inputs are taken up to the first result that the loop can
      tell nobody, if there is one: there it waits. */
  method Run(l: Loop, inputs: seq<Input>, past: seq<Moment>)
    returns (n: nat, trace: seq<Moment>, notices: seq<nat>, ghost active: seq<bool>)
    requires l.Valid() && l.Settled() && !l.stopped && l.flushed == Pending(past, |past|)
    requires forall input :: input in inputs ==> Proper(input)
    modifies l, l.reader
    ensures l.Valid() && l.Settled()
    ensures Ran(past, inputs, active, n, l.bufferSize, trace, notices, old(SnapOf(l)), SnapOf(l))
    ensures forall tag: byte :: IsEvent(tag) ==> Accounted(l, tag)
    ensures AllHeard(past, inputs, active, n)
    ensures n < |inputs| ==> inputs[n].RequestResult? && active[n] && !Stopped(inputs, n) && Blocks(trace)
  {
    hide Loop.Valid, Loop.Settled, Accounted, Heard, AllKeepActive, Handed, TraceTo;
    n, trace, notices, active := 0, past, [], [l.request.active];
    RanNothing(past, inputs, l.bufferSize, SnapOf(l));
    while n < |inputs|
      invariant l.Valid() && l.Settled() && (l.reader == old(l.reader) || fresh(l.reader))
      invariant Ran(past, inputs, active, n, l.bufferSize, trace, notices, old(SnapOf(l)), SnapOf(l))
      invariant AllHeard(past, inputs, active, n)
    {
      if Ready(l, inputs[n]) && inputs[n].RequestResult? && Blocks(trace) {
        break;
      }
      HeardNow(past, inputs, active, n, l.bufferSize, trace, notices, old(SnapOf(l)), SnapOf(l));
      ghost var before := active;
      var more;
      trace, more := Advance(l, inputs, n, trace, past, notices, active, old(SnapOf(l)));
      notices, active, n := notices + more, active + [l.request.active], n + 1;
      HeardOneMore(past, inputs, before, l.request.active, n - 1);
    }
    AllAccounted(l);
  }

  /** The n-th input, taken or not. */
  method Advance(l: Loop, inputs: seq<Input>, n: nat, trace: seq<Moment>, ghost past: seq<Moment>,
                 ghost notices: seq<nat>, ghost active: seq<bool>, ghost s0: Snap)
    returns (trace': seq<Moment>, more: seq<nat>)
    requires l.Valid() && l.Settled() && n < |inputs| && Proper(inputs[n])
    requires Ran(past, inputs, active, n, l.bufferSize, trace, notices, s0, SnapOf(l))
    modifies l, l.reader
    ensures l.Valid() && l.Settled() && (l.reader == old(l.reader) || fresh(l.reader))
    ensures Ran(past, inputs, active + [l.request.active], n + 1, l.bufferSize, trace', notices + more, s0, SnapOf(l))
  {
    hide Loop.Valid, Loop.Settled;
    var input := inputs[n];
    ghost var s := SnapOf(l);
    if Ready(l, input) {
      var before := l.request.active;
      more := Take(l, input, |trace|);
      trace' := trace + MomentOf(input, trace, before, l.request.active);
      RanTaken(past, inputs, active, n, l.bufferSize, trace, notices, s0, s, SnapOf(l), more);
    } else {
      trace', more := trace, [];
      RanSkipped(past, inputs, active, n, l.bufferSize, trace, notices, s0, s);
      assert notices + more == notices;
    }
  }
}
