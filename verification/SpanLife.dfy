/** The life of the spans of one transaction as a pure state machine: starting, ending,
    the one-slot compression caches, composites, dropping of fast exit spans, counters
    (span.go, span_compressed.go, transaction.go).

    Module Spans proves that the classes, which update their fields as the source does,
    follow this machine step by step.  Here its laws are proved over every run. */
module SpanLife {
  import opened Basics
  import opened SpanCompression
  import opened DroppedSpansStats

  /** Where a span is. */
  datatype Fate =
    | Running
    | InHand                          // ended by its owner, being disposed of
    | Cached                          // in the cache of its parent, or of the transaction
    | Absorbed(head: nat, at: nat)    // member number `at` of the composite `head`
    | Reported(at: nat)               // event number `at` of the queue
    | FastDropped
    | Unrecorded                      // dropped already when it started
    | Mismatched                      // child of an exit span with another type
    | Discarded                       // was cached when its transaction was discarded
  {
    /** SpanData is gone. */
    predicate Gone() {
      Reported? || FastDropped? || Unrecorded? || Mismatched?
    }

    /** End was called, but SpanData is still there. */
    predicate Lingering() {
      Cached? || Absorbed? || Discarded?
    }
  }

  /** A trace context, as far as the life of spans depends on it. */
  datatype TraceContext = TraceContext(span: int, recorded: bool)

  /** What is fixed when a span starts.  `overMax` says that it was dropped then because
      the limit on spans had been reached. */
  datatype Birth = Birth(
    id: int, parent: Option<nat>, parentID: int, exit: bool, start: Time,
    recorded: bool, overMax: bool, options: CompressionOptions, exitSpanMinDuration: int)
  {
    predicate StartDropped() {
      !recorded || overMax
    }
  }

  /** The fields of a span that change.  `irregular` is history: a child was started under
      an explicit trace context, or after this span's End. */
  datatype Rec = Rec(
    propagated: bool, irregular: bool, dropped: bool,
    info: Info, outcome: string, resource: string, serviceTarget: Target, composite: CompositeSpan)

  /** History: the spans that a span stands for, itself first, and what they were when
      they ended. */
  datatype Group = Group(members: seq<nat>, infos: seq<Info>)

  const NO_GROUP := Group([], [])

  /** One transaction and its spans, column by column; spans are numbered as they start. */
  datatype State = State(
    context: TraceContext, recording: bool,
    options: CompressionOptions, maxSpans: int, exitSpanMinDuration: int,
    born: seq<Birth>, rec: seq<Rec>, fate: seq<Fate>, cache: seq<Option<nat>>, group: seq<Group>,
    txCache: Option<nat>, ended: bool,
    spansCreated: int, spansDropped: int, stats: map<Key, Timing>,
    queue: seq<nat>,        // span events sent to the tracer, oldest first
    drops: seq<Drop>)       // history: the calls that reached stats

  // ----- the invariant, part by part -----

  predicate Shape(st: State) {
    |st.born| == |st.rec| == |st.fate| == |st.cache| == |st.group|
  }

  /** Caches and cached spans point at each other, one to one. */
  ghost predicate Links(born: seq<Birth>, fate: seq<Fate>, cache: seq<Option<nat>>, txCache: Option<nat>)
    requires |born| == |fate| == |cache|
  {
    && (txCache.Some? ==>
          txCache.value < |fate| && fate[txCache.value].Cached? && born[txCache.value].parent.None?)
    && (forall i :: 0 <= i < |cache| && cache[i].Some? ==>
          && cache[i].value < |fate|
          && fate[cache[i].value].Cached?
          && born[cache[i].value].parent == Some(i))
    && (forall i :: 0 <= i < |fate| && fate[i].Cached? ==>
          match born[i].parent
          case None => txCache == Some(i)
          case Some(p) => p < i && cache[p] == Some(i))
  }

  /** Absorbed spans and the members of composites correspond one to one. */
  ghost predicate Absorption(fate: seq<Fate>, group: seq<Group>)
    requires |fate| == |group|
  {
    && (forall a :: 0 <= a < |fate| && fate[a].Absorbed? ==>
          && fate[a].head < |group|
          && 1 <= fate[a].at < |group[fate[a].head].members|
          && group[fate[a].head].members[fate[a].at] == a)
    && (forall h :: 0 <= h < |group| ==> GroupOk(fate, group, h))
  }

  ghost predicate GroupOk(fate: seq<Fate>, group: seq<Group>, h: nat)
    requires |fate| == |group| && h < |group|
  {
    forall j :: 1 <= j < |group[h].members| ==> MemberAt(fate, group, h, j)
  }

  ghost predicate MemberAt(fate: seq<Fate>, group: seq<Group>, h: nat, j: nat)
    requires |fate| == |group| && h < |group| && j < |group[h].members|
  {
    var a := group[h].members[j];
    a < |fate| && fate[a] == Absorbed(h, j) && j < |group[h].infos| && group[a].infos == [group[h].infos[j]]
  }

  /** A span with children has been propagated, so it is not cached, unless a child was
      started irregularly. */
  ghost predicate Family(born: seq<Birth>, rec: seq<Rec>, fate: seq<Fate>)
    requires |born| == |rec| == |fate|
  {
    forall c :: 0 <= c < |born| && born[c].parent.Some? ==>
      && born[c].parent.value < c
      && (rec[born[c].parent.value].propagated || rec[born[c].parent.value].irregular)
      && (fate[born[c].parent.value].Lingering() ==> rec[born[c].parent.value].irregular)
  }

  /** Every reported span is in the queue exactly once. */
  ghost predicate Reports(fate: seq<Fate>, queue: seq<nat>) {
    && (forall i :: 0 <= i < |fate| && fate[i].Reported? ==> fate[i].at < |queue| && queue[fate[i].at] == i)
    && (forall k :: 0 <= k < |queue| ==> queue[k] < |fate| && fate[queue[k]] == Reported(k))
  }

  /** Ending such a span may leave a child behind in its cache. */
  ghost predicate Leaky(b: Birth, r: Rec, f: Fate) {
    b.StartDropped() || f.Mismatched? || r.irregular
  }

  /** The composite accounts for the members; eviction sets duration and name. */
  ghost predicate CompositeOk(i: nat, b: Birth, r: Rec, f: Fate, g: Group) {
    && |g.members| == |g.infos|
    && r.info.parentID == b.parentID && r.info.start == b.start
    && if f.Running? || f.Mismatched? then g == NO_GROUP && r.composite == ZERO_COMPOSITE
       else
         && g.infos != [] && g.members[0] == i
         && Exact(r.composite, g.infos, b.options)
         && if |g.infos| == 1 || f.Lingering() then r.info == g.infos[0]
            else r.info == EvictedInfo(g.infos[0], r.composite, r.serviceTarget)
  }

  predicate Succeeded(outcome: string) {
    outcome == "" || outcome == "success"
  }

  ghost predicate Ok(i: nat, b: Birth, r: Rec, f: Fate, cache: Option<nat>, g: Group, txOptions: CompressionOptions) {
    && b.options == (if b.StartDropped() then DISABLED else txOptions)
    && (r.dropped <==> b.StartDropped() || f.FastDropped? || f.Mismatched?)
    && (b.overMax ==> b.recorded)
    && (f.Unrecorded? ==> b.StartDropped())
    && (f.Reported? || f.FastDropped? || f.Lingering() ==> !b.StartDropped())
    && (f.Lingering() ==> b.options.enabled && b.exit && Succeeded(r.outcome))
    && (f.Absorbed? ==> |g.infos| == 1)
    && (cache.Some? ==> f.Running? || f.InHand? || Leaky(b, r, f))
    && CompositeOk(i, b, r, f, g)
  }

  ghost predicate Lives(born: seq<Birth>, rec: seq<Rec>, fate: seq<Fate>, cache: seq<Option<nat>>,
                        group: seq<Group>, options: CompressionOptions)
    requires |born| == |rec| == |fate| == |cache| == |group|
  {
    forall i {:trigger Ok(i, born[i], rec[i], fate[i], cache[i], group[i], options)} ::
      0 <= i < |fate| ==> Ok(i, born[i], rec[i], fate[i], cache[i], group[i], options)
  }

  datatype Class = CountsCreated | CountsDropped | CountsAbsorbed | Uncounted

  /** Which counter a span is in. */
  function ClassOf(b: Birth, f: Fate): Class {
    if !b.recorded then Uncounted
    else if b.overMax || f.FastDropped? then CountsDropped
    else if f.Absorbed? then CountsAbsorbed
    else CountsCreated
  }

  function Count(born: seq<Birth>, fate: seq<Fate>, c: Class): nat
    requires |born| == |fate|
  {
    if born == [] then 0
    else
      var n := |born| - 1;
      Count(born[..n], fate[..n], c) + if ClassOf(born[n], fate[n]) == c then 1 else 0
  }

  ghost predicate Counters(st: State)
    requires Shape(st)
  {
    && st.spansCreated == Count(st.born, st.fate, CountsCreated)
    && st.spansDropped == Count(st.born, st.fate, CountsDropped)
    && (st.maxSpans >= 0 ==> st.spansCreated <= st.maxSpans)
  }

  ghost predicate Inv(st: State) {
    && Shape(st)
    && Links(st.born, st.fate, st.cache, st.txCache)
    && (st.ended ==> st.txCache.None?)
    && (!st.recording ==> !st.options.enabled)
    && Lives(st.born, st.rec, st.fate, st.cache, st.group, st.options)
    && Absorption(st.fate, st.group)
    && Family(st.born, st.rec, st.fate)
    && Reports(st.fate, st.queue)
    && (!st.ended ==> Counters(st) && Faithful(st.stats, st.drops))
  }

  /** No span is half way through End. */
  ghost predicate Quiet(st: State) {
    forall i :: 0 <= i < |st.fate| ==> !st.fate[i].InHand?
  }

  // ----- the steps -----

  /** What evicting a composite makes of its head's name and duration. */
  function EvictedInfo(info: Info, c: CompositeSpan, target: Target): Info {
    info.(name := if c.strategy == SameKind then CompositeName(target) else info.name,
          duration := c.lastSiblingEnd - info.start)
  }

  function CacheOf(st: State, holder: Option<nat>): Option<nat>
    requires holder.Some? ==> holder.value < |st.cache|
  {
    if holder.Some? then st.cache[holder.value] else st.txCache
  }

  function SetCache(st: State, holder: Option<nat>, c: Option<nat>): State
    requires holder.Some? ==> holder.value < |st.cache|
  {
    if holder.Some? then st.(cache := st.cache[holder.value := c]) else st.(txCache := c)
  }

  /** evict (span_compressed.go): empties a cache, and settles a composite. */
  function Evict(st: State, holder: Option<nat>): State
    requires Shape(st)
    requires holder.Some? ==> holder.value < |st.cache|
    requires CacheOf(st, holder).Some? ==> CacheOf(st, holder).value < |st.fate|
  {
    var c := CacheOf(st, holder);
    if c.None? then st
    else
      var r := st.rec[c.value];
      var info := if r.composite.Empty() then r.info else EvictedInfo(r.info, r.composite, r.serviceTarget);
      SetCache(st, holder, None).(
        rec := st.rec[c.value := r.(info := info)],
        fate := st.fate[c.value := InHand])
  }

  predicate Eligible(b: Birth, r: Rec) {
    b.exit && !r.propagated && Succeeded(r.outcome)
  }

  predicate Discardable(b: Birth, r: Rec) {
    Eligible(b, r) && r.info.duration < b.exitSpanMinDuration
  }

  function StatOf(r: Rec): Drop {
    Drop(Key(r.serviceTarget.typ, r.serviceTarget.name, r.resource, r.outcome),
         if r.composite.Empty() then 1 else r.composite.count, r.info.duration)
  }

  /** aggregateDroppedSpanStats (span.go). */
  function Aggregate(st: State, b: Birth, r: Rec): State {
    if !st.ended && b.exit && r.resource != ""
    then st.(stats := Add(st.stats, StatOf(r)), drops := st.drops + [StatOf(r)])
    else st
  }

  /** Where `end` sends span i. */
  function Destination(st: State, i: nat): Fate
    requires Shape(st) && i < |st.fate|
  {
    if st.born[i].StartDropped() then Unrecorded
    else if !st.ended && Discardable(st.born[i], st.rec[i]) then FastDropped
    else Reported(|st.queue|)
  }

  function Dispose(st: State, i: nat): State
    requires Shape(st) && i < |st.fate|
  {
    match Destination(st, i)
    case Unrecorded => st.(fate := st.fate[i := Unrecorded])
    case FastDropped =>
      st.(fate := st.fate[i := FastDropped], rec := st.rec[i := st.rec[i].(dropped := true)],
          spansCreated := st.spansCreated - 1, spansDropped := st.spansDropped + 1)
    case _ => st.(fate := st.fate[i := Reported(|st.queue|)], queue := st.queue + [i])
  }

  /** end (span.go): drops span i or enqueues it. */
  function Finish(st: State, i: nat): (st': State)
    requires Shape(st) && i < |st.fate|
    ensures Shape(st') && st'.born == st.born && st'.cache == st.cache
  {
    if Destination(st, i).Reported? then Dispose(st, i)
    else Aggregate(Dispose(st, i), st.born[i], st.rec[i])
  }

  /** What a span is found to be when it is ended. */
  datatype Settled = Settled(
    name: string, typ: string, subtype: string, target: Option<Target>, duration: int,
    outcome: string, resource: string, serviceTarget: Target)

  function SettledRec(b: Birth, r: Rec, s: Settled): Rec {
    r.(info := Info(s.name, s.typ, s.subtype, s.target, b.parentID, b.start, s.duration),
       outcome := s.outcome, resource := s.resource, serviceTarget := s.serviceTarget)
  }

  /** What instrumentation sets on a running span. */
  function Edit(st: State, i: nat, s: Settled): State
    requires Shape(st) && i < |st.fate|
  {
    st.(rec := st.rec[i := SettledRec(st.born[i], st.rec[i], s)])
  }

  function Settle(st: State, i: nat, s: Settled): State
    requires Shape(st) && i < |st.fate|
  {
    var r := SettledRec(st.born[i], st.rec[i], s);
    st.(rec := st.rec[i := r], fate := st.fate[i := InHand], group := st.group[i := Group([i], [r.info])])
  }

  /** The early return for a child of an exit span with another type (span.go:398-410):
      the span is dropped, its own cache is not flushed, no counter changes. */
  function Mismatch(st: State, i: nat, s: Settled): State
    requires Shape(st) && i < |st.fate|
  {
    st.(rec := st.rec[i := SettledRec(st.born[i], st.rec[i], s).(dropped := true)],
        fate := st.fate[i := Mismatched])
  }

  function DropMismatched(st: State, i: nat, s: Settled): State
    requires Shape(st) && i < |st.fate|
  {
    Aggregate(Mismatch(st, i, s), st.born[i], SettledRec(st.born[i], st.rec[i], s))
  }

  function PutInCache(st: State, holder: Option<nat>, i: nat): State
    requires Shape(st) && i < |st.fate| && (holder.Some? ==> holder.value < |st.cache|)
  {
    SetCache(st, holder, Some(i)).(fate := st.fate[i := Cached])
  }

  /** compress (span_compressed.go), when the deciders accept, and the counter. */
  function AbsorbInto(st: State, c: nat, i: nat): State
    requires Shape(st) && i < |st.fate| && c < |st.fate|
  {
    var r := st.rec[c];
    var strategy := Choose(r.info, r.composite, st.born[c].options, st.rec[i].info);
    st.(rec := st.rec[c := r.(composite := Absorb(r.info, r.composite, strategy, st.rec[i].info))],
        fate := st.fate[i := Absorbed(c, |st.group[c].members|)],
        group := st.group[c := Group(st.group[c].members + [i], st.group[c].infos + [st.rec[i].info])],
        spansCreated := if st.ended then st.spansCreated else st.spansCreated - 1)
  }

  /** The state after an attempt to compress, the span evicted by it, and whether the
      ending span went into a cache or a composite. */
  datatype Attempt = Attempt(st: State, evicted: Option<nat>, cached: bool)

  predicate Accepts(st: State, c: nat, i: nat)
    requires Shape(st) && i < |st.fate| && c < |st.fate|
  {
    Choose(st.rec[c].info, st.rec[c].composite, st.born[c].options, st.rec[i].info) != NoStrategy
  }

  predicate Within(born: seq<Birth>, cache: seq<Option<nat>>, txCache: Option<nat>) {
    && (txCache.Some? ==> txCache.value < |born|)
    && (forall i :: 0 <= i < |cache| && cache[i].Some? ==> cache[i].value < |born|)
    && (forall i :: 0 <= i < |born| && born[i].parent.Some? ==> born[i].parent.value < |born|)
  }

  predicate WellFormed(st: State) {
    Shape(st) && Within(st.born, st.cache, st.txCache)
  }

  function CompressOrEvictCache(st: State, holder: Option<nat>, i: nat): (a: Attempt)
    requires WellFormed(st) && i < |st.fate| && (holder.Some? ==> holder.value < |st.cache|)
    ensures Shape(a.st) && a.st.born == st.born && (a.evicted.Some? ==> a.evicted.value < |st.fate|)
  {
    if !Eligible(st.born[i], st.rec[i]) then Attempt(Evict(st, holder), CacheOf(st, holder), false)
    else if CacheOf(st, holder).None? then Attempt(PutInCache(st, holder, i), None, true)
    else if Accepts(st, CacheOf(st, holder).value, i) then
      Attempt(AbsorbInto(st, CacheOf(st, holder).value, i), None, true)
    else Attempt(PutInCache(Evict(st, holder), holder, i), CacheOf(st, holder), true)
  }

  function AttemptCompress(st: State, i: nat): (a: Attempt)
    requires WellFormed(st) && i < |st.fate|
    ensures Shape(a.st) && a.st.born == st.born && (a.evicted.Some? ==> a.evicted.value < |st.fate|)
  {
    var b := st.born[i];
    if !b.options.enabled then Attempt(st, None, false)
    else if st.cache[i].Some? then Attempt(Evict(st, Some(i)), st.cache[i], false)
    else if (if b.parent.Some? then st.fate[b.parent.value].Gone() else st.ended) then Attempt(st, None, false)
    else CompressOrEvictCache(st, b.parent, i)
  }

  /** What End does after the attempt: the evicted span is finished first. */
  function Conclude(a: Attempt, i: nat): State
    requires Shape(a.st) && i < |a.st.fate| && (a.evicted.Some? ==> a.evicted.value < |a.st.fate|)
  {
    var st1 := if a.evicted.Some? then Finish(a.st, a.evicted.value) else a.st;
    if a.cached then st1 else Finish(st1, i)
  }

  /** Span.End. */
  function EndSpan(st: State, i: nat, mismatched: bool, s: Settled): State
    requires WellFormed(st) && i < |st.fate|
  {
    if st.fate[i].Gone() then st
    else if mismatched then DropMismatched(st, i, s)
    else
      Conclude(AttemptCompress(Settle(st, i, s), i), i)
  }

  /** Span.TraceContext. */
  function Propagate(st: State, i: nat): State
    requires Shape(st) && i < |st.fate|
  {
    st.(rec := st.rec[i := st.rec[i].(propagated := true)])
  }

  datatype NewSpan = NewSpan(
    id: int, name: string, typ: string, subtype: string, start: Time, exit: bool,
    parent: Option<nat>, explicitParent: Option<TraceContext>)

  /** The trace context a new span continues. */
  function ParentContext(st: State, n: NewSpan): TraceContext
    requires n.parent.Some? ==> n.parent.value < |st.born|
  {
    if n.explicitParent.Some? then n.explicitParent.value
    else if n.parent.Some? then TraceContext(st.born[n.parent.value].id, st.born[n.parent.value].recorded)
    else st.context
  }

  function BirthOf(st: State, n: NewSpan): Birth
    requires n.parent.Some? ==> n.parent.value < |st.born|
  {
    var c := ParentContext(st, n);
    var overMax := c.recorded && st.maxSpans >= 0 && st.spansCreated >= st.maxSpans;
    if !c.recorded || overMax
    then Birth(c.span, n.parent, c.span, n.exit, n.start, c.recorded, overMax, DISABLED, 0)
    else Birth(n.id, n.parent, c.span, n.exit, n.start, true, false, st.options, st.exitSpanMinDuration)
  }

  function FirstRec(b: Birth, n: NewSpan): Rec {
    Rec(false, false, b.StartDropped(), Info(n.name, n.typ, n.subtype, None, b.parentID, b.start, -1),
        "", "", Target("", ""), ZERO_COMPOSITE)
  }

  /** A started child marks its parent: as propagated, or as irregular. */
  function Adopt(st: State, n: NewSpan): State
    requires Shape(st) && (n.parent.Some? ==> n.parent.value < |st.born|)
  {
    if n.parent.None? then st
    else
      var p := n.parent.value;
      st.(rec := st.rec[p := st.rec[p].(
        propagated := st.rec[p].propagated || n.explicitParent.None?,
        irregular := st.rec[p].irregular || n.explicitParent.Some? || !st.fate[p].Running?)])
  }

  /** Transaction.StartSpanOptions.  After the transaction's end the new span belongs to
      no transaction; all that happens here is that the parent's context is taken. */
  function StartSpan(st: State, n: NewSpan): State
    requires Shape(st) && (n.parent.Some? ==> n.parent.value < |st.born|)
  {
    if st.ended then
      if n.parent.Some? && n.explicitParent.None? then Propagate(st, n.parent.value) else st
    else
      var b, st1 := BirthOf(st, n), Adopt(st, n);
      st1.(born := st1.born + [b], rec := st1.rec + [FirstRec(b, n)], fate := st1.fate + [Running],
           cache := st1.cache + [None], group := st1.group + [NO_GROUP],
           spansCreated := if b.StartDropped() then st.spansCreated else st.spansCreated + 1,
           spansDropped := if b.overMax then st.spansDropped + 1 else st.spansDropped)
  }

  /** Transaction.End. */
  function EndTransaction(st: State): State
    requires WellFormed(st)
  {
    if st.ended then st
    else if st.recording && st.txCache.Some? then
      Finish(Evict(st, None), st.txCache.value).(ended := true)
    else st.(ended := true)
  }

  /** Transaction.Discard: the data of the transaction, its cache included, is dropped. */
  function DiscardTransaction(st: State): State
    requires WellFormed(st)
  {
    if st.ended then st
    else st.(ended := true, txCache := None,
             fate := if st.txCache.Some? then st.fate[st.txCache.value := Discarded] else st.fate)
  }

  // ----- how single updates bear on the parts -----

  lemma LinksFate(born: seq<Birth>, fate: seq<Fate>, cache: seq<Option<nat>>, txCache: Option<nat>, i: nat, f: Fate)
    requires |born| == |fate| == |cache| && i < |fate|
    requires Links(born, fate, cache, txCache)
    requires !fate[i].Cached? && !f.Cached?
    ensures Links(born, fate[i := f], cache, txCache)
  {
  }

  lemma LinksEvict(born: seq<Birth>, fate: seq<Fate>, cache: seq<Option<nat>>, txCache: Option<nat>, i: nat, f: Fate)
    requires |born| == |fate| == |cache| && i < |fate|
    requires Links(born, fate, cache, txCache) && fate[i].Cached? && !f.Cached?
    ensures born[i].parent.None? ==> Links(born, fate[i := f], cache, None)
    ensures born[i].parent.Some? ==>
              born[i].parent.value < |cache| && Links(born, fate[i := f], cache[born[i].parent.value := None], txCache)
  {
  }

  lemma LinksCache(born: seq<Birth>, fate: seq<Fate>, cache: seq<Option<nat>>, txCache: Option<nat>, i: nat)
    requires |born| == |fate| == |cache| && i < |fate|
    requires Links(born, fate, cache, txCache) && fate[i].InHand?
    ensures born[i].parent.None? && txCache.None? ==> Links(born, fate[i := Cached], cache, Some(i))
    ensures born[i].parent.Some? && born[i].parent.value < i && cache[born[i].parent.value].None? ==>
              Links(born, fate[i := Cached], cache[born[i].parent.value := Some(i)], txCache)
  {
  }

  lemma AbsorptionFate(fate: seq<Fate>, group: seq<Group>, i: nat, f: Fate)
    requires |fate| == |group| && i < |fate|
    requires Absorption(fate, group) && !fate[i].Absorbed? && !f.Absorbed?
    ensures Absorption(fate[i := f], group)
  {
    var fate' := fate[i := f];
    forall h | 0 <= h < |group|
      ensures GroupOk(fate', group, h)
    {
      assert GroupOk(fate, group, h);
      forall j | 1 <= j < |group[h].members|
        ensures MemberAt(fate', group, h, j)
      {
        assert MemberAt(fate, group, h, j);
      }
    }
  }

  lemma FamilyFate(born: seq<Birth>, rec: seq<Rec>, fate: seq<Fate>, i: nat, f: Fate, r: Rec)
    requires |born| == |rec| == |fate| && i < |fate|
    requires Family(born, rec, fate)
    requires rec[i].propagated ==> r.propagated
    requires rec[i].irregular ==> r.irregular
    requires f.Lingering() ==> fate[i].Lingering() || !rec[i].propagated
    ensures Family(born, rec[i := r], fate[i := f])
  {
  }

  lemma ReportsFate(fate: seq<Fate>, queue: seq<nat>, i: nat, f: Fate)
    requires Reports(fate, queue) && i < |fate| && !fate[i].Reported? && !f.Reported?
    ensures Reports(fate[i := f], queue)
  {
  }

  lemma {:induction false} CountFate(born: seq<Birth>, fate: seq<Fate>, i: nat, f: Fate, c: Class)
    requires |born| == |fate| && i < |fate|
    ensures Count(born, fate[i := f], c) ==
            Count(born, fate, c) - (if ClassOf(born[i], fate[i]) == c then 1 else 0)
                                 + (if ClassOf(born[i], f) == c then 1 else 0)
  {
    var n := |born| - 1;
    if i == n {
      assert fate[i := f][..n] == fate[..n];
    } else {
      assert fate[i := f][..n] == fate[..n][i := f];
      CountFate(born[..n], fate[..n], i, f, c);
    }
  }

  /** Only span i, and the cache of span h, change. */
  lemma LivesPut(st: State, st': State, i: nat, h: nat)
    requires Shape(st) && Shape(st') && st'.born == st.born && st'.options == st.options
    requires Lives(st.born, st.rec, st.fate, st.cache, st.group, st.options)
    requires i < |st.fate| && h < |st.fate|
    requires forall j :: 0 <= j < |st.fate| && j != i ==>
               st'.rec[j] == st.rec[j] && st'.fate[j] == st.fate[j] && st'.group[j] == st.group[j]
               && (j != h ==> st'.cache[j] == st.cache[j])
    requires h != i ==> st'.cache[h].None? || st.fate[h].Running? || st.fate[h].InHand? || Leaky(st.born[h], st.rec[h], st.fate[h])
    requires Ok(i, st.born[i], st'.rec[i], st'.fate[i], st'.cache[i], st'.group[i], st.options)
    ensures Lives(st'.born, st'.rec, st'.fate, st'.cache, st'.group, st'.options)
  {
    forall j | 0 <= j < |st'.fate|
      ensures Ok(j, st'.born[j], st'.rec[j], st'.fate[j], st'.cache[j], st'.group[j], st'.options)
    {
      assert Ok(j, st.born[j], st.rec[j], st.fate[j], st.cache[j], st.group[j], st.options);
    }
  }

  /** The fate of span i changes, and the counters follow its class. */
  lemma CountersPut(st: State, st': State, i: nat)
    requires Shape(st) && Shape(st') && Counters(st) && i < |st.fate|
    requires st'.born == st.born && st'.maxSpans == st.maxSpans
    requires st'.fate == st.fate[i := st'.fate[i]]
    requires var b, c := ClassOf(st.born[i], st.fate[i]), ClassOf(st.born[i], st'.fate[i]);
             && (c == CountsCreated ==> b == CountsCreated)
             && st'.spansCreated == st.spansCreated - (if b == CountsCreated then 1 else 0) + (if c == CountsCreated then 1 else 0)
             && st'.spansDropped == st.spansDropped - (if b == CountsDropped then 1 else 0) + (if c == CountsDropped then 1 else 0)
    ensures Counters(st')
  {
    CountFate(st.born, st.fate, i, st'.fate[i], CountsCreated);
    CountFate(st.born, st.fate, i, st'.fate[i], CountsDropped);
  }

  lemma AggregateKeepsInv(st: State, b: Birth, r: Rec)
    requires Inv(st)
    ensures Inv(Aggregate(st, b, r))
  {
    if !st.ended {
      AddKeepsFaithful(st.stats, st.drops, StatOf(r));
    }
  }

  lemma EvictKeepsInv(st: State, holder: Option<nat>)
    requires Inv(st) && (holder.Some? ==> holder.value < |st.cache|)
    requires CacheOf(st, holder).Some?
    ensures Inv(Evict(st, holder))
  {
    hide Absorption, Family, Reports, Faithful, Counters;
    var c := CacheOf(st, holder).value;
    var st' := Evict(st, holder);
    assert Ok(c, st.born[c], st.rec[c], st.fate[c], st.cache[c], st.group[c], st.options);
    LivesPut(st, st', c, if holder.Some? then holder.value else c);
    LinksEvict(st.born, st.fate, st.cache, st.txCache, c, InHand);
    AbsorptionFate(st.fate, st.group, c, InHand);
    FamilyFate(st.born, st.rec, st.fate, c, InHand, st'.rec[c]);
    ReportsFate(st.fate, st.queue, c, InHand);
    if !st.ended {
      CountersPut(st, st', c);
    }
  }

  lemma OkInHand(st: State, i: nat)
    requires Inv(st) && i < |st.fate| && st.fate[i].InHand?
    ensures st.rec[i].dropped <==> st.born[i].StartDropped()
  {
    assert Ok(i, st.born[i], st.rec[i], st.fate[i], st.cache[i], st.group[i], st.options);
  }

  lemma InvWellFormed(st: State)
    requires Inv(st)
    ensures WellFormed(st)
  {
  }

  // ----- finishing -----

  lemma ReportsAppend(fate: seq<Fate>, queue: seq<nat>, i: nat)
    requires Reports(fate, queue) && i < |fate| && !fate[i].Reported?
    ensures Reports(fate[i := Reported(|queue|)], queue + [i])
  {
  }

  /** Span i may be finished: nothing it can be blamed for is left in its cache. */
  ghost predicate MayFinish(st: State, i: nat)
    requires Shape(st)
  {
    && i < |st.fate| && st.fate[i].InHand?
    && (st.cache[i].Some? ==> Leaky(st.born[i], st.rec[i], st.fate[i]))
  }

  /** The parts of the invariant that any step within one span's disposal keeps. */
  lemma DisposeKeeps(st: State, i: nat, f: Fate, r: Rec)
    requires Inv(st) && i < |st.fate| && (st.fate[i].InHand? || st.fate[i].Running?)
    requires f.Gone() && r.propagated == st.rec[i].propagated && r.irregular == st.rec[i].irregular
    ensures Links(st.born, st.fate[i := f], st.cache, st.txCache)
    ensures Absorption(st.fate[i := f], st.group)
    ensures Family(st.born, st.rec[i := r], st.fate[i := f])
    ensures !f.Reported? ==> Reports(st.fate[i := f], st.queue)
    ensures f == Reported(|st.queue|) ==> Reports(st.fate[i := f], st.queue + [i])
  {
    LinksFate(st.born, st.fate, st.cache, st.txCache, i, f);
    AbsorptionFate(st.fate, st.group, i, f);
    FamilyFate(st.born, st.rec, st.fate, i, f, r);
    if f.Reported? {
      if f == Reported(|st.queue|) {
        ReportsAppend(st.fate, st.queue, i);
      }
    } else {
      ReportsFate(st.fate, st.queue, i, f);
    }
  }

  lemma DisposeUnrecorded(st: State, i: nat)
    requires Inv(st) && MayFinish(st, i) && Destination(st, i).Unrecorded?
    ensures Inv(Dispose(st, i))
  {
    hide Links, Absorption, Family, Reports, Faithful, Counters;
    assert Ok(i, st.born[i], st.rec[i], st.fate[i], st.cache[i], st.group[i], st.options);
    DisposeKeeps(st, i, Unrecorded, st.rec[i]);
    assert st.rec[i := st.rec[i]] == st.rec;
    LivesPut(st, Dispose(st, i), i, i);
    if !st.ended {
      CountersPut(st, Dispose(st, i), i);
    }
  }

  lemma DisposeFast(st: State, i: nat)
    requires Inv(st) && MayFinish(st, i) && Destination(st, i).FastDropped?
    ensures Inv(Dispose(st, i))
  {
    hide Links, Absorption, Family, Reports, Faithful, Counters;
    assert Ok(i, st.born[i], st.rec[i], st.fate[i], st.cache[i], st.group[i], st.options);
    DisposeKeeps(st, i, FastDropped, st.rec[i].(dropped := true));
    LivesPut(st, Dispose(st, i), i, i);
    if !st.ended {
      CountersPut(st, Dispose(st, i), i);
    }
  }

  lemma DisposeReported(st: State, i: nat)
    requires Inv(st) && MayFinish(st, i) && Destination(st, i).Reported?
    ensures Inv(Dispose(st, i))
  {
    hide Links, Absorption, Family, Reports, Faithful, Counters;
    assert Ok(i, st.born[i], st.rec[i], st.fate[i], st.cache[i], st.group[i], st.options);
    DisposeKeeps(st, i, Reported(|st.queue|), st.rec[i]);
    assert st.rec[i := st.rec[i]] == st.rec;
    LivesPut(st, Dispose(st, i), i, i);
    if !st.ended {
      CountersPut(st, Dispose(st, i), i);
    }
  }

  lemma FinishKeepsInv(st: State, i: nat)
    requires Inv(st) && MayFinish(st, i)
    ensures Inv(Finish(st, i))
  {
    match Destination(st, i) {
      case Unrecorded => DisposeUnrecorded(st, i);
      case FastDropped => DisposeFast(st, i);
      case _ => DisposeReported(st, i);
    }
    AggregateKeepsInv(Dispose(st, i), st.born[i], st.rec[i]);
  }

  // ----- settling -----

  lemma AbsorptionSettle(fate: seq<Fate>, group: seq<Group>, i: nat, f: Fate, g: Group)
    requires |fate| == |group| && i < |fate|
    requires Absorption(fate, group) && !fate[i].Absorbed? && !f.Absorbed?
    requires group[i] == NO_GROUP && |g.members| <= 1
    ensures Absorption(fate[i := f], group[i := g])
  {
    var fate', group' := fate[i := f], group[i := g];
    forall h | 0 <= h < |group|
      ensures GroupOk(fate', group', h)
    {
      assert GroupOk(fate, group, h);
      forall j | 1 <= j < |group'[h].members|
        ensures MemberAt(fate', group', h, j)
      {
        assert MemberAt(fate, group, h, j);
        assert group[h].members[j] != i;
      }
    }
  }

  lemma SettleKeepsInv(st: State, i: nat, s: Settled)
    requires Inv(st) && i < |st.fate| && st.fate[i].Running?
    ensures Inv(Settle(st, i, s))
  {
    var st' := Settle(st, i, s);
    assert Ok(i, st.born[i], st.rec[i], st.fate[i], st.cache[i], st.group[i], st.options);
    LinksFate(st.born, st.fate, st.cache, st.txCache, i, InHand);
    AbsorptionSettle(st.fate, st.group, i, InHand, st'.group[i]);
    FamilyFate(st.born, st.rec, st.fate, i, InHand, st'.rec[i]);
    ReportsFate(st.fate, st.queue, i, InHand);
    LivesPut(st, st', i, i);
    if !st.ended {
      CountersPut(st, st', i);
    }
  }

  lemma MismatchKeepsInv(st: State, i: nat, s: Settled)
    requires Inv(st) && i < |st.fate| && st.fate[i].Running?
    ensures Inv(DropMismatched(st, i, s))
  {
    var st' := Mismatch(st, i, s);
    assert Ok(i, st.born[i], st.rec[i], st.fate[i], st.cache[i], st.group[i], st.options);
    DisposeKeeps(st, i, Mismatched, st'.rec[i]);
    LivesPut(st, st', i, i);
    if !st.ended {
      CountersPut(st, st', i);
    }
    AggregateKeepsInv(st', st.born[i], SettledRec(st.born[i], st.rec[i], s));
  }

  // ----- caching and absorbing -----

  /** Span i, in hand, may go to the cache of its parent or transaction. */
  ghost predicate MayCache(st: State, i: nat)
    requires Shape(st)
  {
    && i < |st.fate| && st.fate[i].InHand? && |st.group[i].infos| == 1
    && !st.born[i].StartDropped() && st.born[i].options.enabled
    && Eligible(st.born[i], st.rec[i])
    && st.cache[i].None?
    && match st.born[i].parent
       case None => !st.ended
       case Some(p) => p < i && !st.fate[p].Gone()
  }

  lemma CacheLives(st: State, i: nat)
    requires Inv(st) && MayCache(st, i)
    ensures var st' := PutInCache(st, st.born[i].parent, i);
            Lives(st'.born, st'.rec, st'.fate, st'.cache, st'.group, st'.options)
  {
    var st' := PutInCache(st, st.born[i].parent, i);
    assert Ok(i, st.born[i], st.rec[i], st.fate[i], st.cache[i], st.group[i], st.options);
    if st.born[i].parent.Some? {
      var p := st.born[i].parent.value;
      assert Ok(p, st.born[p], st.rec[p], st.fate[p], st.cache[p], st.group[p], st.options);
      LivesPut(st, st', i, p);
    } else {
      LivesPut(st, st', i, i);
    }
  }

  lemma CacheKeepsInv(st: State, i: nat)
    requires Inv(st) && MayCache(st, i) && CacheOf(st, st.born[i].parent).None?
    ensures Inv(PutInCache(st, st.born[i].parent, i))
  {
    LinksCache(st.born, st.fate, st.cache, st.txCache, i);
    AbsorptionFate(st.fate, st.group, i, Cached);
    FamilyFate(st.born, st.rec, st.fate, i, Cached, st.rec[i]);
    ReportsFate(st.fate, st.queue, i, Cached);
    CacheLives(st, i);
    assert st.rec[i := st.rec[i]] == st.rec;
    if !st.ended {
      CountersPut(st, PutInCache(st, st.born[i].parent, i), i);
    }
  }

  lemma AbsorptionAbsorb(fate: seq<Fate>, group: seq<Group>, c: nat, i: nat, g: Group)
    requires |fate| == |group| && i < |fate| && c < |fate| && i != c
    requires Absorption(fate, group) && fate[i].InHand? && fate[c].Cached?
    requires |group[i].infos| == 1 && |group[i].members| == 1
    requires |group[c].members| == |group[c].infos| >= 1
    requires g == Group(group[c].members + [i], group[c].infos + group[i].infos)
    ensures Absorption(fate[i := Absorbed(c, |group[c].members|)], group[c := g])
  {
    var fate', group' := fate[i := Absorbed(c, |group[c].members|)], group[c := g];
    forall h | 0 <= h < |group|
      ensures GroupOk(fate', group', h)
    {
      assert GroupOk(fate, group, h);
      forall j | 1 <= j < |group'[h].members|
        ensures MemberAt(fate', group', h, j)
      {
        if h == c && j == |group[c].members| {
          assert group'[h].members[j] == i;
        } else {
          assert MemberAt(fate, group, h, j);
          assert group'[h].members[j] == group[h].members[j];
        }
      }
    }
    forall a | 0 <= a < |fate'| && fate'[a].Absorbed?
      ensures fate'[a].head < |group'| && 1 <= fate'[a].at < |group'[fate'[a].head].members|
      ensures group'[fate'[a].head].members[fate'[a].at] == a
    {
    }
  }

  lemma AbsorbLives(st: State, c: nat, i: nat)
    requires Shape(st) && Lives(st.born, st.rec, st.fate, st.cache, st.group, st.options)
    requires MayCache(st, i) && c < |st.fate| && st.fate[c].Cached? && Accepts(st, c, i)
    ensures var st' := AbsorbInto(st, c, i);
            Lives(st'.born, st'.rec, st'.fate, st'.cache, st'.group, st'.options)
  {
    var st' := AbsorbInto(st, c, i);
    var st1 := st.(rec := st'.rec, group := st'.group);
    assert Ok(c, st.born[c], st.rec[c], st.fate[c], st.cache[c], st.group[c], st.options);
    assert Ok(i, st.born[i], st.rec[i], st.fate[i], st.cache[i], st.group[i], st.options);
    AbsorbHead(c, st.born[c], st.rec[c], st.cache[c], st.group[c], i, st.rec[i].info, st.options);
    LivesPut(st, st1, c, c);
    LivesPut(st1, st', i, i);
  }

  lemma AbsorbHead(c: nat, b: Birth, r: Rec, cache: Option<nat>, g: Group, i: nat, info: Info, options: CompressionOptions)
    requires Ok(c, b, r, Cached, cache, g, options)
    requires Choose(r.info, r.composite, b.options, info) != NoStrategy
    ensures Ok(c, b,
               r.(composite := Absorb(r.info, r.composite, Choose(r.info, r.composite, b.options, info), info)),
               Cached, cache, Group(g.members + [i], g.infos + [info]), options)
  {
    AbsorbKeepsExact(r.composite, g.infos, b.options, info);
  }

  lemma AbsorbFamily(born: seq<Birth>, rec: seq<Rec>, fate: seq<Fate>, c: nat, i: nat, f: Fate, r: Rec)
    requires |born| == |rec| == |fate| && i < |fate| && c < |fate| && i != c
    requires Family(born, rec, fate) && !rec[i].propagated
    requires r.propagated == rec[c].propagated && r.irregular == rec[c].irregular
    ensures Family(born, rec[c := r], fate[i := f])
  {
    FamilyFate(born, rec, fate, i, f, rec[i]);
    assert rec[i := rec[i]] == rec;
    FamilyFate(born, rec, fate[i := f], c, fate[c], r);
    assert fate[i := f][c := fate[c]] == fate[i := f];
  }

  lemma AbsorbKeepsParts(st: State, c: nat, i: nat)
    requires Shape(st) && i < |st.fate| && c < |st.fate| && i != c && st.fate[i].InHand? && st.fate[c].Cached?
    requires Links(st.born, st.fate, st.cache, st.txCache) && Absorption(st.fate, st.group)
    requires Family(st.born, st.rec, st.fate) && Reports(st.fate, st.queue)
    requires |st.group[i].infos| == 1 && |st.group[i].members| == 1 && st.group[i].infos == [st.rec[i].info]
    requires |st.group[c].members| == |st.group[c].infos| >= 1 && !st.rec[i].propagated
    ensures var st' := AbsorbInto(st, c, i);
            && Links(st'.born, st'.fate, st'.cache, st'.txCache) && Absorption(st'.fate, st'.group)
            && Family(st'.born, st'.rec, st'.fate) && Reports(st'.fate, st'.queue)
  {
    var st' := AbsorbInto(st, c, i);
    LinksFate(st.born, st.fate, st.cache, st.txCache, i, st'.fate[i]);
    AbsorptionAbsorb(st.fate, st.group, c, i, st'.group[c]);
    AbsorbFamily(st.born, st.rec, st.fate, c, i, st'.fate[i], st'.rec[c]);
    ReportsFate(st.fate, st.queue, i, st'.fate[i]);
  }

  /** Absorbing span i into the cached span c. */
  lemma AbsorbKeepsInv(st: State, c: nat, i: nat)
    requires Inv(st) && MayCache(st, i) && CacheOf(st, st.born[i].parent) == Some(c) && Accepts(st, c, i)
    ensures Inv(AbsorbInto(st, c, i))
  {
    assert Ok(c, st.born[c], st.rec[c], st.fate[c], st.cache[c], st.group[c], st.options);
    assert Ok(i, st.born[i], st.rec[i], st.fate[i], st.cache[i], st.group[i], st.options);
    AbsorbKeepsParts(st, c, i);
    AbsorbLives(st, c, i);
    if !st.ended {
      CountersPut(st, AbsorbInto(st, c, i), i);
    }
  }

  // ----- starting -----

  lemma AppendKeeps(born: seq<Birth>, rec: seq<Rec>, fate: seq<Fate>, cache: seq<Option<nat>>, group: seq<Group>,
                    txCache: Option<nat>, queue: seq<nat>, b: Birth, r: Rec)
    requires |born| == |rec| == |fate| == |cache| == |group|
    requires Links(born, fate, cache, txCache) && Absorption(fate, group)
    requires Family(born, rec, fate) && Reports(fate, queue)
    requires b.parent.Some? ==>
               && b.parent.value < |born|
               && (rec[b.parent.value].propagated || rec[b.parent.value].irregular)
               && (fate[b.parent.value].Lingering() ==> rec[b.parent.value].irregular)
    ensures Links(born + [b], fate + [Running], cache + [None], txCache)
    ensures Absorption(fate + [Running], group + [NO_GROUP])
    ensures Family(born + [b], rec + [r], fate + [Running])
    ensures Reports(fate + [Running], queue)
  {
    var fate', group' := fate + [Running], group + [NO_GROUP];
    forall h | 0 <= h < |group'|
      ensures GroupOk(fate', group', h)
    {
      if h < |group| {
        assert GroupOk(fate, group, h);
        forall j | 1 <= j < |group'[h].members|
          ensures MemberAt(fate', group', h, j)
        {
          assert MemberAt(fate, group, h, j);
        }
      }
    }
  }

  lemma CountAppend(born: seq<Birth>, fate: seq<Fate>, b: Birth, f: Fate, c: Class)
    requires |born| == |fate|
    ensures Count(born + [b], fate + [f], c) == Count(born, fate, c) + if ClassOf(b, f) == c then 1 else 0
  {
    assert (born + [b])[..|born|] == born && (fate + [f])[..|fate|] == fate;
  }

  /** A span's flags only ever go up. */
  lemma MarkKeepsInv(st: State, p: nat, propagated: bool, irregular: bool)
    requires Inv(st) && p < |st.rec|
    requires st.rec[p].propagated ==> propagated
    requires st.rec[p].irregular ==> irregular
    ensures Inv(st.(rec := st.rec[p := st.rec[p].(propagated := propagated, irregular := irregular)]))
  {
    var st' := st.(rec := st.rec[p := st.rec[p].(propagated := propagated, irregular := irregular)]);
    assert Ok(p, st.born[p], st.rec[p], st.fate[p], st.cache[p], st.group[p], st.options);
    FamilyFate(st.born, st.rec, st.fate, p, st.fate[p], st'.rec[p]);
    assert st.fate[p := st.fate[p]] == st.fate;
    LivesPut(st, st', p, p);
  }

  lemma AdoptKeepsInv(st: State, n: NewSpan)
    requires Inv(st) && (n.parent.Some? ==> n.parent.value < |st.born|)
    ensures Inv(Adopt(st, n))
  {
    if n.parent.Some? {
      var r := Adopt(st, n).rec[n.parent.value];
      MarkKeepsInv(st, n.parent.value, r.propagated, r.irregular);
    }
  }

  lemma StartCounters(st: State, n: NewSpan)
    requires Shape(st) && Counters(st) && (n.parent.Some? ==> n.parent.value < |st.born|) && !st.ended
    ensures Counters(StartSpan(st, n))
  {
    hide FirstRec, ParentContext;
    CountAppend(st.born, st.fate, BirthOf(st, n), Running, CountsCreated);
    CountAppend(st.born, st.fate, BirthOf(st, n), Running, CountsDropped);
  }

  lemma StartKeepsInv(st: State, n: NewSpan)
    requires Inv(st) && (n.parent.Some? ==> n.parent.value < |st.born|) && !st.ended
    ensures Inv(StartSpan(st, n))
  {
    hide Links, Lives, Absorption, Family, Reports, Counters, Faithful;
    var st1, b := Adopt(st, n), BirthOf(st, n);
    AdoptKeepsInv(st, n);
    AppendKeeps(st1.born, st1.rec, st1.fate, st1.cache, st1.group, st1.txCache, st1.queue, b, FirstRec(b, n));
    StartLives(st, n);
    StartCounters(st, n);
  }

  lemma StartLives(st: State, n: NewSpan)
    requires Inv(st) && (n.parent.Some? ==> n.parent.value < |st.born|) && !st.ended
    ensures var st' := StartSpan(st, n);
            Lives(st'.born, st'.rec, st'.fate, st'.cache, st'.group, st'.options)
  {
    AdoptKeepsInv(st, n);
    var st1, st' := Adopt(st, n), StartSpan(st, n);
    forall i | 0 <= i < |st'.fate|
      ensures Ok(i, st'.born[i], st'.rec[i], st'.fate[i], st'.cache[i], st'.group[i], st'.options)
    {
      if i < |st1.fate| {
        assert Ok(i, st1.born[i], st1.rec[i], st1.fate[i], st1.cache[i], st1.group[i], st1.options);
      }
    }
  }

  lemma PropagateKeepsInv(st: State, i: nat)
    requires Inv(st) && i < |st.fate|
    ensures Inv(Propagate(st, i))
  {
    MarkKeepsInv(st, i, true, st.rec[i].irregular);
  }

  // ----- ending -----

  lemma CacheImpliesEnabled(st: State, i: nat)
    requires Inv(st) && i < |st.fate| && st.cache[i].Some?
    ensures st.options.enabled
    ensures st.fate[i].Lingering() || !st.born[i].options.enabled ==> Leaky(st.born[i], st.rec[i], st.fate[i])
  {
    var c := st.cache[i].value;
    assert Ok(c, st.born[c], st.rec[c], st.fate[c], st.cache[c], st.group[c], st.options);
    assert Ok(i, st.born[i], st.rec[i], st.fate[i], st.cache[i], st.group[i], st.options);
  }

  /** Evicting leaves the evicted span in hand, ready to be finished. */
  lemma EvictHands(st: State, holder: Option<nat>)
    requires Inv(st) && (holder.Some? ==> holder.value < |st.cache|)
    requires CacheOf(st, holder).Some?
    ensures var e, st' := CacheOf(st, holder).value, Evict(st, holder);
            && Inv(st') && MayFinish(st', e) && st.fate[e].Cached? && st.born[e].parent == holder
            && CacheOf(st', holder) == None
            && (forall j :: 0 <= j < |st.fate| && j != e ==> st'.fate[j] == st.fate[j] && st'.rec[j] == st.rec[j])
            && st'.group == st.group
            && (forall j :: 0 <= j < |st.fate| && holder != Some(j) ==> st'.cache[j] == st.cache[j])
  {
    hide Absorption, Family, Reports, Counters, Faithful;
    var e := CacheOf(st, holder).value;
    EvictKeepsInv(st, holder);
    if st.cache[e].Some? {
      CacheImpliesEnabled(st, e);
    }
  }

  /** Span i is the only one in hand, freshly settled. */
  ghost predicate Settling(st: State, i: nat)
    requires Shape(st)
  {
    && i < |st.fate| && st.fate[i].InHand? && |st.group[i].infos| == 1
    && forall j :: 0 <= j < |st.fate| && j != i ==> !st.fate[j].InHand?
  }

  /** What an attempt to compress leaves behind. */
  ghost predicate AttemptOk(st: State, i: nat, a: Attempt)
    requires Shape(st) && i < |st.fate|
  {
    && Inv(a.st) && |a.st.fate| == |st.fate| && a.st.born == st.born && a.st.ended == st.ended
    && (a.evicted.Some? ==>
          && a.evicted.value != i && a.evicted.value < |st.fate|
          && st.fate[a.evicted.value].Cached? && MayFinish(a.st, a.evicted.value))
    && (if a.cached then a.st.fate[i].Cached? || a.st.fate[i].Absorbed? else MayFinish(a.st, i))
    && (forall j :: 0 <= j < |st.fate| && j != i && a.evicted != Some(j) ==> a.st.fate[j] == st.fate[j])
  }

  /** Span i may go to a cache, but not into what is cached there now. */
  lemma ReplaceOk(st: State, i: nat)
    requires Inv(st) && Settling(st, i) && MayCache(st, i) && CacheOf(st, st.born[i].parent).Some?
    ensures var h := st.born[i].parent;
            AttemptOk(st, i, Attempt(PutInCache(Evict(st, h), h, i), CacheOf(st, h), true))
  {
    hide Lives, Absorption, Family, Reports, Counters, Faithful;
    EvictHands(st, st.born[i].parent);
    CacheKeepsInv(Evict(st, st.born[i].parent), i);
  }

  lemma EvictOk(st: State, i: nat, holder: Option<nat>)
    requires Inv(st) && Settling(st, i) && holder != Some(i) && (holder.Some? ==> holder.value < |st.cache|)
    requires st.cache[i].None?
    ensures AttemptOk(st, i, Attempt(Evict(st, holder), CacheOf(st, holder), false))
  {
    if CacheOf(st, holder).Some? {
      EvictHands(st, holder);
    }
  }

  lemma CompressOrEvictOk(st: State, i: nat)
    requires Inv(st) && WellFormed(st) && Settling(st, i) && st.cache[i].None?
    requires !st.born[i].StartDropped() && st.born[i].options.enabled
    requires match st.born[i].parent
             case None => !st.ended
             case Some(p) => !st.fate[p].Gone()
    ensures AttemptOk(st, i, CompressOrEvictCache(st, st.born[i].parent, i))
  {
    hide Lives, Absorption, Reports, Counters, Faithful;
    var holder := st.born[i].parent;
    if !Eligible(st.born[i], st.rec[i]) {
      EvictOk(st, i, holder);
    } else if CacheOf(st, holder).None? {
      CacheKeepsInv(st, i);
    } else if Accepts(st, CacheOf(st, holder).value, i) {
      AbsorbKeepsInv(st, CacheOf(st, holder).value, i);
    } else {
      ReplaceOk(st, i);
    }
  }

  lemma AttemptCompressOk(st: State, i: nat)
    requires Inv(st) && WellFormed(st) && Settling(st, i)
    ensures AttemptOk(st, i, AttemptCompress(st, i))
  {
    assert Ok(i, st.born[i], st.rec[i], st.fate[i], st.cache[i], st.group[i], st.options);
    if st.cache[i].Some? {
      CacheImpliesEnabled(st, i);
      EvictHands(st, Some(i));
    } else if st.born[i].options.enabled && !(if st.born[i].parent.Some? then st.fate[st.born[i].parent.value].Gone() else st.ended) {
      CompressOrEvictOk(st, i);
    }
  }

  /** From st to st', of the spans other than i only a cached one may have changed, and
      that one is gone. */
  ghost predicate OthersKept(st: State, st': State, i: nat) {
    && |st'.fate| == |st.fate| && st'.born == st.born && st'.ended == st.ended
    && forall j :: 0 <= j < |st.fate| && j != i ==>
         st'.fate[j] == st.fate[j] || (st.fate[j].Cached? && st'.fate[j].Gone())
  }

  lemma FinishTouchesOne(st: State, i: nat)
    requires Shape(st) && i < |st.fate|
    ensures var st' := Finish(st, i);
            && st'.ended == st.ended && st'.fate == st.fate[i := Destination(st, i)]
            && st'.rec[i].irregular == st.rec[i].irregular
            && forall j :: 0 <= j < |st.fate| && j != i ==> st'.rec[j] == st.rec[j]
  {
  }

  /** Only span i and, of the cached spans, perhaps one other are in hand. */
  lemma FinishEvicted(st: State, i: nat, a: Attempt)
    requires Shape(st) && Settling(st, i) && AttemptOk(st, i, a) && a.evicted.Some?
    ensures var st1 := Finish(a.st, a.evicted.value);
            && Inv(st1) && OthersKept(st, st1, i) && st1.fate[i] == a.st.fate[i]
            && (!a.cached ==> MayFinish(st1, i))
            && forall j :: 0 <= j < |st.fate| && j != i ==> !st1.fate[j].InHand?
  {
    hide Lives, Absorption, Family, Reports, Counters, Faithful, Finish;
    FinishKeepsInv(a.st, a.evicted.value);
    FinishTouchesOne(a.st, a.evicted.value);
  }

  lemma FinishLast(st: State, st1: State, i: nat)
    requires Inv(st1) && OthersKept(st, st1, i) && MayFinish(st1, i)
    requires forall j :: 0 <= j < |st.fate| && j != i ==> !st1.fate[j].InHand?
    ensures Inv(Finish(st1, i)) && Quiet(Finish(st1, i)) && OthersKept(st, Finish(st1, i), i)
    ensures Finish(st1, i).fate[i].Gone()
  {
    FinishKeepsInv(st1, i);
    FinishTouchesOne(st1, i);
  }

  lemma ConcludeOk(st: State, i: nat, a: Attempt)
    requires Shape(st) && Settling(st, i) && AttemptOk(st, i, a)
    ensures var st' := Conclude(a, i);
            && Inv(st') && Quiet(st') && OthersKept(st, st', i)
            && if a.cached then st'.fate[i] == a.st.fate[i] else st'.fate[i].Gone()
  {
    var st1 := a.st;
    if a.evicted.Some? {
      FinishEvicted(st, i, a);
      st1 := Finish(a.st, a.evicted.value);
    }
    if !a.cached {
      FinishLast(st, st1, i);
    }
  }

  /** Ending a span keeps the invariant and leaves nothing in hand.  The span ends up
      gone, cached or absorbed; of the others only one evicted span can change, and
      that one is gone. */
  lemma EndKeepsInv(st: State, i: nat, mismatched: bool, s: Settled)
    requires Inv(st) && WellFormed(st) && Quiet(st) && i < |st.fate|
    requires st.fate[i].Running? || st.fate[i].Gone()
    ensures var st' := EndSpan(st, i, mismatched, s);
            && Inv(st') && Quiet(st') && OthersKept(st, st', i)
            && (st'.fate[i].Gone() || st'.fate[i].Cached? || st'.fate[i].Absorbed?)
  {
    hide Links, Lives, Absorption, Family, Reports, Counters, Faithful, Conclude, AttemptCompress, Settle;
    if st.fate[i].Gone() {
    } else if mismatched {
      MismatchKeepsInv(st, i, s);
    } else {
      EndSettled(st, i, s);
    }
  }

  lemma EndSettled(st: State, i: nat, s: Settled)
    requires Inv(st) && WellFormed(st) && Quiet(st) && i < |st.fate| && st.fate[i].Running?
    ensures var st', a := EndSpan(st, i, false, s), AttemptCompress(Settle(st, i, s), i);
            && Inv(st') && Quiet(st') && OthersKept(st, st', i)
            && (st'.fate[i].Gone() || st'.fate[i].Cached? || st'.fate[i].Absorbed?)
            && i < |a.st.fate| && (if a.cached then st'.fate[i] == a.st.fate[i] else st'.fate[i].Gone())
  {
    hide Links, Lives, Absorption, Family, Reports, Counters, Faithful, Conclude, AttemptCompress, AttemptOk;
    var st0 := Settle(st, i, s);
    SettleKeepsInv(st, i, s);
    AttemptCompressOk(st0, i);
    ConcludeOk(st0, i, AttemptCompress(st0, i));
  }

  lemma EditKeepsInv(st: State, i: nat, s: Settled)
    requires Inv(st) && i < |st.fate| && st.fate[i].Running?
    ensures Inv(Edit(st, i, s))
  {
    var st' := Edit(st, i, s);
    assert Ok(i, st.born[i], st.rec[i], st.fate[i], st.cache[i], st.group[i], st.options);
    FamilyFate(st.born, st.rec, st.fate, i, st.fate[i], st'.rec[i]);
    assert st.fate[i := st.fate[i]] == st.fate;
    LivesPut(st, st', i, i);
  }

  // ----- the end of the transaction -----

  lemma NothingCachedUnlessRecording(st: State)
    requires Inv(st) && st.txCache.Some?
    ensures st.recording
  {
    var c := st.txCache.value;
    assert Ok(c, st.born[c], st.rec[c], st.fate[c], st.cache[c], st.group[c], st.options);
  }

  lemma FinishTxCache(st: State)
    requires Inv(st) && Quiet(st) && st.txCache.Some?
    ensures var st' := Finish(Evict(st, None), st.txCache.value);
            Inv(st') && Quiet(st') && st'.txCache.None?
  {
    hide Lives, Absorption, Family, Reports, Counters, Faithful, Evict, Finish;
    EvictHands(st, None);
    FinishKeepsInv(Evict(st, None), st.txCache.value);
    FinishTouchesOne(Evict(st, None), st.txCache.value);
  }

  lemma EndTransactionKeepsInv(st: State)
    requires Inv(st) && WellFormed(st) && Quiet(st)
    ensures Inv(EndTransaction(st)) && Quiet(EndTransaction(st)) && EndTransaction(st).ended
  {
    if !st.ended && st.txCache.Some? {
      NothingCachedUnlessRecording(st);
      FinishTxCache(st);
    }
  }

  lemma DiscardTransactionKeepsInv(st: State)
    requires Inv(st) && WellFormed(st) && Quiet(st)
    ensures Inv(DiscardTransaction(st)) && Quiet(DiscardTransaction(st))
  {
    if !st.ended && st.txCache.Some? {
      var c, st' := st.txCache.value, DiscardTransaction(st);
      assert Ok(c, st.born[c], st.rec[c], st.fate[c], st.cache[c], st.group[c], st.options);
      LinksEvict(st.born, st.fate, st.cache, st.txCache, c, Discarded);
      AbsorptionFate(st.fate, st.group, c, Discarded);
      FamilyFate(st.born, st.rec, st.fate, c, Discarded, st.rec[c]);
      assert st.rec[c := st.rec[c]] == st.rec;
      ReportsFate(st.fate, st.queue, c, Discarded);
      LivesPut(st, st', c, c);
    }
  }

  // ----- runs -----

  datatype Op =
    | Start(n: NewSpan)
    | TakeContext(i: nat)
    | Set(i: nat, s: Settled)
    | End(i: nat, mismatched: bool, s: Settled)
    | EndTx
    | DiscardTx

  /** What the documentation asks of callers: a span is not used again once ended.  (A
      second End of a span whose data is gone is harmless, and allowed here.) */
  predicate Enabled(st: State, op: Op)
    requires Shape(st)
  {
    match op
    case Start(n) => n.parent.Some? ==> n.parent.value < |st.born|
    case TakeContext(i) => i < |st.fate|
    case Set(i, _) => i < |st.fate| && st.fate[i].Running?
    case End(i, _, _) => i < |st.fate| && (st.fate[i].Running? || st.fate[i].Gone())
    case EndTx => true
    case DiscardTx => true
  }

  function Step(st: State, op: Op): State
    requires WellFormed(st) && Enabled(st, op)
  {
    match op
    case Start(n) => StartSpan(st, n)
    case TakeContext(i) => Propagate(st, i)
    case Set(i, s) => Edit(st, i, s)
    case End(i, mismatched, s) => EndSpan(st, i, mismatched, s)
    case EndTx => EndTransaction(st)
    case DiscardTx => DiscardTransaction(st)
  }

  /** What holds between two operations. */
  ghost predicate Good(st: State) {
    WellFormed(st) && Inv(st) && Quiet(st)
  }

  lemma StartIsGood(st: State, n: NewSpan)
    requires Good(st) && (n.parent.Some? ==> n.parent.value < |st.born|)
    ensures Good(StartSpan(st, n))
  {
    hide Links, Lives, Absorption, Family, Reports, Counters, Faithful;
    if st.ended {
      if n.parent.Some? {
        PropagateKeepsInv(st, n.parent.value);
      }
    } else {
      StartKeepsInv(st, n);
      InvWellFormed(StartSpan(st, n));
    }
  }

  lemma StepKeepsInv(st: State, op: Op)
    requires Good(st) && Enabled(st, op)
    ensures Good(Step(st, op))
  {
    match op {
      case Start(n) => StartIsGood(st, n);
      case TakeContext(i) => PropagateKeepsInv(st, i);
      case Set(i, s) => EditKeepsInv(st, i, s);
      case End(i, mismatched, s) => EndKeepsInv(st, i, mismatched, s); InvWellFormed(EndSpan(st, i, mismatched, s));
      case EndTx => EndTransactionKeepsInv(st); InvWellFormed(EndTransaction(st));
      case DiscardTx => DiscardTransactionKeepsInv(st);
    }
  }

  /** A transaction that has just started. */
  function Initial(context: TraceContext, recording: bool, options: CompressionOptions, maxSpans: int,
                   exitSpanMinDuration: int): State
  {
    State(context, recording, if recording then options else DISABLED, maxSpans, exitSpanMinDuration,
          [], [], [], [], [], None, false, 0, 0, map[], [], [])
  }

  /** st' is reached from st by the operations ops. */
  ghost predicate Reaches(st: State, ops: seq<Op>, st': State)
    decreases |ops|
  {
    if ops == [] then st' == st
    else WellFormed(st) && Enabled(st, ops[0]) && Reaches(Step(st, ops[0]), ops[1..], st')
  }

  /** The invariant holds in every state of every run. */
  lemma {:induction false} RunsKeepInv(st: State, ops: seq<Op>, st': State)
    requires Good(st) && Reaches(st, ops, st')
    ensures Good(st')
    decreases |ops|
  {
    if ops != [] {
      StepKeepsInv(st, ops[0]);
      RunsKeepInv(Step(st, ops[0]), ops[1..], st');
    }
  }

  lemma EmptyIsGood(st: State)
    requires |st.born| == |st.rec| == |st.fate| == |st.cache| == |st.group| == 0
    requires st.txCache.None? && !st.ended && (!st.recording ==> !st.options.enabled)
    requires st.spansCreated == 0 && st.spansDropped == 0 && st.stats == map[] && st.queue == [] && st.drops == []
    ensures Good(st)
  {
  }

  lemma InitialIsGood(context: TraceContext, recording: bool, options: CompressionOptions, maxSpans: int, exitMin: int)
    ensures Good(Initial(context, recording, options, maxSpans, exitMin))
  {
    hide Good;
    EmptyIsGood(Initial(context, recording, options, maxSpans, exitMin));
  }
}
