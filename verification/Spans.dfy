/** Spans and transactions as objects (span.go, span_compressed.go, transaction.go).

    The methods update the objects as the source does.  `Transaction.model` is the state of
    the machine of module SpanLife; `Valid` ties every object to it, and every method says
    which step of the machine it takes.  The locks make each operation atomic. */
module Spans {
  import opened Basics
  import opened SpanCompression
  import L = SpanLife
  import DroppedSpansStats

  datatype Hints = Hints(
    statusCode: int, errorCaptured: bool, setServiceTargetCalled: bool, setDestinationServiceCalled: bool,
    fallbackName: string)

  function TypeOrSubtype(typ: string, subtype: string): string {
    if subtype == "" then typ else subtype
  }

  /** A span as End finds it, but for the default type. */
  function Raw(r: L.Rec): L.Settled {
    L.Settled(r.info.name, if r.info.typ == "" then "custom" else r.info.typ, r.info.subtype, r.info.target,
              r.info.duration, r.outcome, r.resource, r.serviceTarget)
  }

  /** The target of an exit span: inferred, unless it was set; a name without a type gets one. */
  function FinalTarget(s: L.Settled, h: Hints): Target {
    if !h.setServiceTargetCalled then Target(TypeOrSubtype(s.typ, s.subtype), h.fallbackName)
    else if s.serviceTarget.typ == "" && s.serviceTarget.name != ""
    then Target(TypeOrSubtype(s.typ, s.subtype), s.serviceTarget.name)
    else s.serviceTarget
  }

  function FinalOutcome(outcome: string, h: Hints): string {
    if outcome != "" then outcome
    else if h.statusCode != 0 then if h.statusCode < 400 then "success" else "failure"
    else if h.errorCaptured then "failure" else "success"
  }

  /** A span with all the defaults that End fills in, now being the time of the call. */
  function Final(b: L.Birth, r: L.Rec, h: Hints, now: Time): L.Settled {
    var s := Raw(r);
    var target := FinalTarget(s, h);
    s.(duration := if s.duration < 0 then now - b.start else s.duration,
       outcome := FinalOutcome(s.outcome, h),
       resource := if b.exit && !h.setDestinationServiceCalled then TypeOrSubtype(s.typ, s.subtype) else s.resource,
       serviceTarget := if b.exit then target else s.serviceTarget,
       target := if !b.exit || (h.setServiceTargetCalled && target == s.serviceTarget) then s.target else Some(target))
  }

  class Span {
    const birth: L.Birth
    const parent: Span?

    /** The struct SpanData, together with the flags of Span itself. */
    var sd: L.Rec

    /** What only End looks at. */
    var hints: Hints

    /** compressedSpan.cache */
    var cache: Span?

    /** SpanData is nil. */
    var ended: bool

    ghost const index: nat

    constructor (birth: L.Birth, parent: Span?, sd: L.Rec, ghost index: nat)
      ensures this.birth == birth && this.parent == parent && this.sd == sd && this.index == index
      ensures cache == null && !ended
    {
      this.birth, this.parent, this.sd, this.index := birth, parent, sd, index;
      hints := Hints(0, false, false, false, "");
      cache, ended := null, false;
    }
  }

  class Transaction {
    const context: L.TraceContext
    const recording: bool
    const options: CompressionOptions
    const maxSpans: int
    const exitSpanMinDuration: int

    /** compressedSpan.cache */
    var cache: Span?

    var ended: bool
    var spansCreated: int
    var spansDropped: int
    var droppedSpansStats: map<DroppedSpansStats.Key, DroppedSpansStats.Timing>

    /** The span events sent to the tracer. */
    var queue: seq<Span>

    ghost var spans: seq<Span>
    ghost var model: L.State

    ghost function At(o: Option<nat>): Span?
      reads this
    {
      if o.Some? && o.value < |spans| then spans[o.value] else null
    }

    /** Span i is as the machine has it; `irregular` is the machine's own history. */
    ghost predicate TiedAt(i: nat)
      reads this, spans
      requires L.Shape(model) && i < |spans| == |model.fate|
    {
      && spans[i].index == i
      && spans[i].birth == model.born[i]
      && spans[i].parent == At(model.born[i].parent)
      && spans[i].sd == model.rec[i].(irregular := false)
      && spans[i].cache == At(model.cache[i])
      && (spans[i].ended <==> model.fate[i].Gone())
    }

    ghost predicate Valid()
      reads this, spans
    {
      && L.WellFormed(model) && |spans| == |model.fate|
      && (forall i {:trigger TiedAt(i)} :: 0 <= i < |spans| ==> TiedAt(i))
      && cache == At(model.txCache)
      && model.context == context && model.recording == recording && model.options == options
      && model.maxSpans == maxSpans && model.exitSpanMinDuration == exitSpanMinDuration
      && model.ended == ended
      && model.spansCreated == spansCreated && model.spansDropped == spansDropped && model.stats == droppedSpansStats
      && |queue| == |model.queue| && forall k :: 0 <= k < |queue| ==> queue[k] == At(Some(model.queue[k]))
    }

    constructor (context: L.TraceContext, recording: bool, options: CompressionOptions, maxSpans: int,
                 exitSpanMinDuration: int)
      ensures Valid() && spans == []
      ensures model == L.Initial(context, recording, options, maxSpans, exitSpanMinDuration)
    {
      this.context, this.recording := context, recording;
      this.options := if recording then options else DISABLED;
      this.maxSpans, this.exitSpanMinDuration := maxSpans, exitSpanMinDuration;
      cache, ended, spansCreated, spansDropped, droppedSpansStats, queue := null, false, 0, 0, map[], [];
      spans := [];
      model := L.Initial(context, recording, options, maxSpans, exitSpanMinDuration);
    }

    ghost predicate Holds(holder: Span?, h: Option<nat>)
      reads this
    {
      match h
      case None => holder == null
      case Some(i) => i < |spans| && holder == spans[i]
    }

    method SetCache(holder: Span?, s: Span?, ghost h: Option<nat>, ghost i: Option<nat>)
      requires Valid() && Holds(holder, h) && s == At(i) && (i.Some? ==> i.value < |spans|)
      modifies this`cache, this`model, spans
      ensures Valid() && model == L.SetCache(old(model), h, i)
      ensures forall x :: x in spans ==> x.sd == old(x.sd) && x.ended == old(x.ended)
    {
      ghost var st := model;
      assert h.Some? ==> TiedAt(h.value);
      if holder != null {
        holder.cache := s;
      } else {
        cache := s;
      }
      model := L.SetCache(st, h, i);
      forall j {:trigger TiedAt(j)} | 0 <= j < |spans|
        ensures TiedAt(j)
      {
        assert old(TiedAt(j));
      }
    }

    /** Updates span i and what the machine has on it. */
    method Put(s: Span, sd: L.Rec, ended: bool, ghost i: nat, ghost r: L.Rec, ghost f: L.Fate)
      requires Valid() && i < |spans| && s == spans[i]
      requires sd == r.(irregular := false) && (ended <==> f.Gone())
      modifies this`model, s`sd, s`ended
      ensures Valid() && model == old(model).(rec := old(model.rec)[i := r], fate := old(model.fate)[i := f])
    {
      assert TiedAt(i);
      s.sd, s.ended := sd, ended;
      model := model.(rec := model.rec[i := r], fate := model.fate[i := f]);
      forall j {:trigger TiedAt(j)} | 0 <= j < |spans|
        ensures TiedAt(j)
      {
        assert old(TiedAt(j));
      }
    }

    /** evict */
    method Evict(holder: Span?, ghost h: Option<nat>) returns (cached: Span?)
      requires Valid() && Holds(holder, h)
      requires L.CacheOf(model, h).Some? ==> model.fate[L.CacheOf(model, h).value].Cached?
      modifies this`cache, this`model, spans
      ensures Valid() && model == L.Evict(old(model), h)
      ensures cached == old(At(L.CacheOf(model, h)))
    {
      ghost var st := model;
      assert h.Some? ==> TiedAt(h.value);
      cached := if holder != null then holder.cache else cache;
      if cached == null {
        return;
      }
      ghost var c := L.CacheOf(st, h).value;
      SetCache(holder, null, h, None);
      assert TiedAt(c);
      var sd := cached.sd;
      if !sd.composite.Empty() {
        sd := sd.(info := L.EvictedInfo(sd.info, sd.composite, sd.serviceTarget));
      }
      Put(cached, sd, cached.ended, c, L.Evict(st, h).rec[c], L.InHand);
    }

    /** Updates the counters and statistics. */
    method Account(created: int, dropped: int, stats: map<DroppedSpansStats.Key, DroppedSpansStats.Timing>,
                   ghost drops: seq<DroppedSpansStats.Drop>)
      requires Valid()
      modifies this`spansCreated, this`spansDropped, this`droppedSpansStats, this`model
      ensures Valid()
      ensures model == old(model).(spansCreated := created, spansDropped := dropped, stats := stats, drops := drops)
    {
      spansCreated, spansDropped, droppedSpansStats := created, dropped, stats;
      model := model.(spansCreated := created, spansDropped := dropped, stats := stats, drops := drops);
      forall j {:trigger TiedAt(j)} | 0 <= j < |spans|
        ensures TiedAt(j)
      {
        assert old(TiedAt(j));
      }
    }

    method Enqueue(s: Span, ghost i: nat)
      requires Valid() && i < |spans| && s == spans[i]
      modifies this`queue, this`model
      ensures Valid() && model == old(model).(queue := old(model.queue) + [i])
    {
      queue := queue + [s];
      model := model.(queue := model.queue + [i]);
      forall j {:trigger TiedAt(j)} | 0 <= j < |spans|
        ensures TiedAt(j)
      {
        assert old(TiedAt(j));
      }
    }

    /** aggregateDroppedSpanStats */
    method AggregateDroppedSpanStats(s: Span, sd: L.Rec, ghost i: nat)
      requires Valid() && i < |spans| && s == spans[i]
      modifies this`spansCreated, this`spansDropped, this`droppedSpansStats, this`model
      ensures Valid() && model == L.Aggregate(old(model), s.birth, sd)
    {
      if !ended && s.birth.exit && sd.resource != "" {
        Account(spansCreated, spansDropped, DroppedSpansStats.Add(droppedSpansStats, L.StatOf(sd)),
                model.drops + [L.StatOf(sd)]);
      }
    }

    /** The part of `end` for a fast exit span (dropFastExitSpan and what follows it). */
    method DropFastExitSpan(s: Span, ghost i: nat)
      requires Valid() && i < |spans| && s == spans[i]
      requires !ended && !s.birth.StartDropped() && L.Discardable(s.birth, s.sd)
      modifies this, s
      ensures Valid() && spans == old(spans) && model == L.Finish(old(model), i)
    {
      assert TiedAt(i);
      var sd := s.sd;
      Put(s, sd.(dropped := true), true, i, model.rec[i].(dropped := true), L.FastDropped);
      Account(spansCreated - 1, spansDropped + 1, droppedSpansStats, model.drops);
      AggregateDroppedSpanStats(s, sd, i);
    }

    /** end: drops the span if it was too fast, and otherwise enqueues it. */
    method Finish(s: Span, ghost i: nat)
      requires Valid() && i < |spans| && s == spans[i]
      requires s.sd.dropped <==> s.birth.StartDropped()
      modifies this, s
      ensures Valid() && spans == old(spans) && model == L.Finish(old(model), i)
    {
      ghost var st := model;
      assert TiedAt(i);
      assert st.rec[i := st.rec[i]] == st.rec;
      if !ended && !s.sd.dropped && L.Discardable(s.birth, s.sd) {
        DropFastExitSpan(s, i);
      } else if s.sd.dropped {
        var sd := s.sd;
        Put(s, sd, true, i, st.rec[i], L.Unrecorded);
        AggregateDroppedSpanStats(s, sd, i);
      } else {
        Put(s, s.sd, true, i, st.rec[i], L.Reported(|st.queue|));
        Enqueue(s, i);
      }
    }

    method PutInCache(holder: Span?, s: Span, ghost h: Option<nat>, ghost i: nat)
      requires Valid() && Holds(holder, h) && i < |spans| && s == spans[i] && model.fate[i].InHand?
      modifies this, spans
      ensures Valid() && spans == old(spans) && model == L.PutInCache(old(model), h, i)
    {
      ghost var r := model.rec[i];
      assert TiedAt(i);
      SetCache(holder, s, h, Some(i));
      assert TiedAt(i);
      Put(s, s.sd, false, i, r, L.Cached);
      assert model.rec[i := r] == model.rec;
    }

    /** Finishing a span in hand: it was dropped, if at all, when it started. */
    method FinishInHand(s: Span, ghost i: nat)
      requires Valid() && L.Inv(model) && i < |spans| && s == spans[i] && model.fate[i].InHand?
      modifies this, s
      ensures Valid() && spans == old(spans) && model == L.Finish(old(model), i)
    {
      assert TiedAt(i);
      L.OkInHand(model, i);
      Finish(s, i);
    }

    /** compressOrEvictCache, for an ending span that is in hand. */
    method CompressOrEvictCache(holder: Span?, s: Span, ghost h: Option<nat>, ghost i: nat)
      returns (evicted: Span?, cached: bool)
      requires Valid() && Holds(holder, h) && i < |spans| && s == spans[i]
      requires model.fate[i].InHand?
      requires L.CacheOf(model, h).Some? ==> model.fate[L.CacheOf(model, h).value].Cached?
      modifies this, spans
      ensures Valid() && spans == old(spans)
      ensures var a := L.CompressOrEvictCache(old(model), h, i);
              model == a.st && evicted == At(a.evicted) && cached == a.cached
    {
      assert TiedAt(i);
      assert h.Some? ==> TiedAt(h.value);
      evicted := null;
      if !L.Eligible(s.birth, s.sd) {
        evicted := Evict(holder, h);
        return evicted, false;
      }
      var c := if holder != null then holder.cache else cache;
      if c == null {
        PutInCache(holder, s, h, i);
        return null, true;
      }
      var accepted := Compress(c, s, L.CacheOf(model, h).value, i);
      if !accepted {
        evicted := Evict(holder, h);
        PutInCache(holder, s, h, i);
      }
      return evicted, true;
    }

    /** attemptCompress */
    method AttemptCompress(s: Span, ghost i: nat) returns (evicted: Span?, cached: bool)
      requires Valid() && L.Inv(model) && i < |spans| && s == spans[i] && model.fate[i].InHand?
      modifies this, spans
      ensures Valid() && spans == old(spans)
      ensures var a := L.AttemptCompress(old(model), i);
              model == a.st && evicted == At(a.evicted) && cached == a.cached
    {
      assert TiedAt(i);
      if !s.birth.options.enabled {
        return null, false;
      }
      if s.cache != null {
        evicted := Evict(s, Some(i));
        return evicted, false;
      }
      ghost var h := model.born[i].parent;
      assert h.Some? ==> TiedAt(h.value);
      if s.parent != null {
        if !s.parent.ended {
          evicted, cached := CompressOrEvictCache(s.parent, s, h, i);
          return;
        }
        return null, false;
      }
      if !ended {
        evicted, cached := CompressOrEvictCache(null, s, h, i);
        return;
      }
      return null, false;
    }

    /** compress: takes the span s into the composite of c, if the deciders agree; the caller
        then lowers the counter of spans created. */
    method Compress(c: Span, s: Span, ghost ci: nat, ghost i: nat) returns (accepted: bool)
      requires Valid() && ci < |spans| && i < |spans| && c == spans[ci] && s == spans[i] && ci != i
      requires model.fate[i].InHand? && model.fate[ci].Cached?
      modifies this, spans
      ensures Valid() && spans == old(spans)
      ensures accepted <==> L.Accepts(old(model), ci, i)
      ensures model == if accepted then L.AbsorbInto(old(model), ci, i) else old(model)
    {
      assert TiedAt(ci) && TiedAt(i);
      if c.sd.info.parentID != s.sd.info.parentID {
        return false;
      }
      var strategy := CanCompressComposite(c.sd.info, c.sd.composite, c.birth.options, s.sd.info);
      if strategy == NoStrategy {
        strategy := CanCompressStandard(c.sd.info, c.sd.composite, c.birth.options, s.sd.info);
      }
      if strategy == NoStrategy {
        return false;
      }
      Take(c, s, strategy, ci, i);
      return true;
    }

    method Take(c: Span, s: Span, strategy: Strategy, ghost ci: nat, ghost i: nat)
      requires Valid() && ci < |spans| && i < |spans| && c == spans[ci] && s == spans[i] && ci != i
      requires model.fate[i].InHand? && model.fate[ci].Cached?
      requires strategy == Choose(model.rec[ci].info, model.rec[ci].composite, model.born[ci].options, model.rec[i].info)
      modifies this, spans
      ensures Valid() && spans == old(spans) && model == L.AbsorbInto(old(model), ci, i)
    {
      ghost var st, st' := model, L.AbsorbInto(model, ci, i);
      assert TiedAt(ci) && TiedAt(i);
      Put(c, c.sd.(composite := Absorb(c.sd.info, c.sd.composite, strategy, s.sd.info)), false, ci, st'.rec[ci], L.Cached);
      assert TiedAt(i);
      Put(s, s.sd, false, i, st.rec[i], st'.fate[i]);
      Account(if ended then spansCreated else spansCreated - 1, spansDropped, droppedSpansStats, st.drops);
      Regroup(st'.group);
      assert model.rec == st'.rec && model.fate == st'.fate;
    }

    /** History only. */
    ghost method Regroup(group: seq<L.Group>)
      requires Valid() && |group| == |spans|
      modifies this`model
      ensures Valid() && model == old(model).(group := group)
    {
      model := model.(group := group);
      forall j {:trigger TiedAt(j)} | 0 <= j < |spans|
        ensures TiedAt(j)
      {
        assert old(TiedAt(j));
      }
    }

    /** Whether End takes the early return for a child of an exit span of another type.  A
        span that has ended keeps the type it had then. */
    predicate MismatchedType(s: Span)
      reads s, s.parent
    {
      && s.parent != null && s.parent.birth.exit
      && (Raw(s.sd).typ != s.parent.sd.info.typ || s.sd.info.subtype != s.parent.sd.info.subtype)
    }

    method EndMismatched(s: Span, raw: L.Settled, ghost i: nat)
      requires Valid() && i < |spans| && s == spans[i]
      modifies this, s
      ensures Valid() && spans == old(spans) && model == L.DropMismatched(old(model), i, raw)
    {
      assert TiedAt(i);
      var sd := L.SettledRec(s.birth, s.sd, raw);
      Put(s, sd.(dropped := true), true, i, L.SettledRec(s.birth, model.rec[i], raw).(dropped := true), L.Mismatched);
      AggregateDroppedSpanStats(s, sd, i);
    }

    method EndSettled(s: Span, settled: L.Settled, ghost i: nat)
      requires Valid() && L.Inv(model) && L.Quiet(model) && i < |spans| && s == spans[i] && model.fate[i].Running?
      modifies this, spans
      ensures Valid() && spans == old(spans)
      ensures model == L.Conclude(L.AttemptCompress(L.Settle(old(model), i, settled), i), i)
    {
      assert TiedAt(i);
      ghost var st0 := L.Settle(model, i, settled);
      L.SettleKeepsInv(model, i, settled);
      L.AttemptCompressOk(st0, i);
      Put(s, L.SettledRec(s.birth, s.sd, settled), false, i, st0.rec[i], L.InHand);
      Regroup(st0.group);
      var evicted, cached := AttemptCompress(s, i);
      Conclude(s, evicted, cached, i, st0, L.AttemptCompress(st0, i));
    }

    /** The end of End: the evicted span is finished first, and then s unless it was cached. */
    method Conclude(s: Span, evicted: Span?, cached: bool, ghost i: nat, ghost st0: L.State, ghost a: L.Attempt)
      requires Valid() && i < |spans| && s == spans[i]
      requires L.Shape(st0) && L.Settling(st0, i) && L.AttemptOk(st0, i, a)
      requires model == a.st && evicted == At(a.evicted) && cached == a.cached
      modifies this, spans
      ensures Valid() && spans == old(spans) && model == L.Conclude(a, i)
    {
      if evicted != null {
        L.FinishEvicted(st0, i, a);
        FinishInHand(evicted, a.evicted.value);
      }
      if !cached {
        FinishInHand(s, i);
      }
    }

    /** Span.End, at time now. */
    method End(s: Span, now: Time, ghost i: nat)
      requires Valid() && L.Good(model) && i < |spans| && s == spans[i]
      requires model.fate[i].Running? || model.fate[i].Gone()
      modifies this, spans
      ensures Valid() && L.Good(model) && spans == old(spans)
      ensures var mismatched := old(MismatchedType(s));
              model == L.EndSpan(old(model), i, mismatched, old(if mismatched then Raw(s.sd) else Final(s.birth, s.sd, s.hints, now)))
    {
      assert TiedAt(i);
      if s.ended {
        return;
      }
      if MismatchedType(s) {
        L.StepKeepsInv(model, L.End(i, true, Raw(s.sd)));
        EndMismatched(s, Raw(s.sd), i);
      } else {
        L.StepKeepsInv(model, L.End(i, false, Final(s.birth, s.sd, s.hints, now)));
        EndSettled(s, Final(s.birth, s.sd, s.hints, now), i);
      }
    }

    /** Span.TraceContext: hands out the context of a span, which may then go downstream. */
    method TraceContext(s: Span, ghost i: nat) returns (c: L.TraceContext)
      requires Valid() && L.Good(model) && i < |spans| && s == spans[i]
      modifies this, s
      ensures Valid() && L.Good(model) && spans == old(spans)
      ensures model == L.Propagate(old(model), i)
      ensures c == L.TraceContext(s.birth.id, s.birth.recorded)
    {
      L.StepKeepsInv(model, L.TakeContext(i));
      assert TiedAt(i);
      ghost var st := model;
      Put(s, s.sd.(propagated := true), s.ended, i, st.rec[i].(propagated := true), st.fate[i]);
      assert st.fate[i := st.fate[i]] == st.fate;
      c := L.TraceContext(s.birth.id, s.birth.recorded);
    }

    /** Instrumentation changes a running span. */
    method Set(s: Span, settled: L.Settled, hints: Hints, ghost i: nat)
      requires Valid() && L.Good(model) && i < |spans| && s == spans[i] && model.fate[i].Running?
      modifies this, s
      ensures Valid() && L.Good(model) && spans == old(spans)
      ensures model == L.Edit(old(model), i, settled) && s.hints == hints
    {
      L.StepKeepsInv(model, L.Set(i, settled));
      assert TiedAt(i);
      ghost var st := model;
      SetHints(s, hints);
      Put(s, L.SettledRec(s.birth, s.sd, settled), false, i, L.SettledRec(st.born[i], st.rec[i], settled), L.Running);
      assert st.fate[i := st.fate[i]] == st.fate;
    }

    method SetHints(s: Span, hints: Hints)
      requires Valid() && s in spans
      modifies s`hints
      ensures Valid() && s.hints == hints
    {
      s.hints := hints;
      forall j {:trigger TiedAt(j)} | 0 <= j < |spans|
        ensures TiedAt(j)
      {
        assert old(TiedAt(j));
      }
    }

    /** Transaction.End, as far as spans are concerned. */
    method EndTransaction()
      requires Valid() && L.Good(model)
      modifies this, spans
      ensures Valid() && L.Good(model) && spans == old(spans)
      ensures model == L.EndTransaction(old(model))
    {
      if ended {
        return;
      }
      L.StepKeepsInv(model, L.EndTx);
      if recording {
        FlushCache();
      }
      MarkEnded();
    }

    method FlushCache()
      requires Valid() && L.Inv(model)
      modifies this, spans
      ensures Valid() && spans == old(spans)
      ensures model == if old(model).txCache.None? then old(model)
                       else L.Finish(L.Evict(old(model), None), old(model).txCache.value)
    {
      ghost var c := model.txCache;
      if c.Some? {
        L.EvictHands(model, None);
      }
      var evicted := Evict(null, None);
      if evicted != null {
        FinishInHand(evicted, c.value);
      }
    }

    method MarkEnded()
      requires Valid()
      modifies this`ended, this`model
      ensures Valid() && model == old(model).(ended := true)
    {
      ended := true;
      model := model.(ended := true);
      forall j {:trigger TiedAt(j)} | 0 <= j < |spans|
        ensures TiedAt(j)
      {
        assert old(TiedAt(j));
      }
    }

    /** Transaction.Discard, as far as spans are concerned. */
    method Discard()
      requires Valid() && L.Good(model)
      modifies this, spans
      ensures Valid() && L.Good(model) && spans == old(spans)
      ensures model == L.DiscardTransaction(old(model))
    {
      if ended {
        return;
      }
      L.StepKeepsInv(model, L.DiscardTx);
      if cache != null {
        DropCache();
      }
      MarkEnded();
    }

    method DropCache()
      requires Valid() && L.Inv(model) && cache != null
      modifies this, spans
      ensures Valid() && spans == old(spans)
      ensures var st := old(model);
              model == st.(txCache := None, fate := st.fate[st.txCache.value := L.Discarded])
    {
      var s := cache;
      ghost var c := model.txCache.value;
      assert TiedAt(c);
      ghost var r := model.rec[c];
      SetCache(null, null, None, None);
      assert TiedAt(c);
      Put(s, s.sd, false, c, r, L.Discarded);
      assert model.rec[c := r] == model.rec;
    }

    /** A new span takes its place among the spans. */
    method Add(s: Span, ghost b: L.Birth, ghost r: L.Rec)
      requires Valid() && s !in spans
      requires s.index == |spans| && s.birth == b && s.parent == At(b.parent) && s.sd == r.(irregular := false)
      requires s.cache == null && !s.ended && (b.parent.Some? ==> b.parent.value < |spans|)
      modifies this`spans, this`model
      ensures Valid() && spans == old(spans) + [s]
      ensures model == old(model).(born := old(model).born + [b], rec := old(model).rec + [r],
                                   fate := old(model).fate + [L.Running], cache := old(model).cache + [None],
                                   group := old(model).group + [L.NO_GROUP])
    {
      ghost var st := model;
      spans := spans + [s];
      model := st.(born := st.born + [b], rec := st.rec + [r], fate := st.fate + [L.Running],
                   cache := st.cache + [None], group := st.group + [L.NO_GROUP]);
      forall j {:trigger TiedAt(j)} | 0 <= j < |spans|
        ensures TiedAt(j)
      {
        assert j < |spans| - 1 ==> old(TiedAt(j));
      }
    }

    /** A started child marks its parent as propagated, or in the history as irregular. */
    method Adopt(parent: Span?, n: L.NewSpan)
      requires Valid() && Holds(parent, n.parent)
      modifies this, spans
      ensures Valid() && spans == old(spans) && model == L.Adopt(old(model), n)
    {
      if parent != null {
        ghost var st, st' := model, L.Adopt(model, n);
        ghost var p := n.parent.value;
        assert TiedAt(p);
        assert st.fate[p := st.fate[p]] == st.fate;
        Put(parent, parent.sd.(propagated := parent.sd.propagated || n.explicitParent.None?), parent.ended,
            p, st'.rec[p], st.fate[p]);
      }
    }

    /** Transaction.StartSpanOptions, where n.parent is the number of parent.  After the
        end of the transaction the span is started outside of it, and null is returned. */
    method StartSpanOptions(parent: Span?, n: L.NewSpan) returns (span: Span?)
      requires Valid() && L.Good(model) && Holds(parent, n.parent)
      modifies this, spans
      ensures Valid() && L.Good(model) && model == L.StartSpan(old(model), n)
      ensures if old(ended) then span == null && spans == old(spans)
              else span != null && fresh(span) && spans == old(spans) + [span]
    {
      ghost var st := model;
      L.StepKeepsInv(st, L.Start(n));
      assert n.parent.Some? ==> TiedAt(n.parent.value);
      if ended {
        if parent != null && n.explicitParent.None? {
          var _ := TraceContext(parent, n.parent.value);
        }
        return null;
      }
      var c := if n.explicitParent.Some? then n.explicitParent.value
               else if parent != null then L.TraceContext(parent.birth.id, parent.birth.recorded)
               else context;
      span := StartWithin(parent, n, c);
    }

    /** The rest of StartSpanOptions, the transaction being live: a span that is not recorded,
        or one too many, is dropped at once. */
    method StartWithin(parent: Span?, n: L.NewSpan, c: L.TraceContext) returns (span: Span)
      requires Valid() && Holds(parent, n.parent) && !ended && c == L.ParentContext(model, n)
      modifies this, spans
      ensures Valid() && model == L.StartSpan(old(model), n) && fresh(span) && spans == old(spans) + [span]
    {
      Adopt(parent, n);
      var notRecorded := !c.recorded;
      var exceedsMaxSpans := maxSpans >= 0 && spansCreated >= maxSpans;
      if notRecorded {
        span := New(n, L.Birth(c.span, n.parent, c.span, n.exit, n.start, false, false, DISABLED, 0), parent);
      } else if exceedsMaxSpans {
        span := New(n, L.Birth(c.span, n.parent, c.span, n.exit, n.start, true, true, DISABLED, 0), parent);
        Account(spansCreated, spansDropped + 1, droppedSpansStats, model.drops);
      } else {
        span := New(n, L.Birth(n.id, n.parent, c.span, n.exit, n.start, true, false, options, exitSpanMinDuration), parent);
        Account(spansCreated + 1, spansDropped, droppedSpansStats, model.drops);
      }
    }

    method New(n: L.NewSpan, b: L.Birth, parent: Span?) returns (span: Span)
      requires Valid() && Holds(parent, n.parent) && b.parent == n.parent
      modifies this`spans, this`model
      ensures Valid() && fresh(span) && spans == old(spans) + [span]
      ensures model == old(model).(born := old(model).born + [b], rec := old(model).rec + [L.FirstRec(b, n)],
                                   fate := old(model).fate + [L.Running], cache := old(model).cache + [None],
                                   group := old(model).group + [L.NO_GROUP])
    {
      span := new Span(b, parent, L.FirstRec(b, n), |spans|);
      Add(span, b, L.FirstRec(b, n));
    }
  }
}
