/** The laws of the life of spans, for every state of every run. */
module SpanLaws {
  import opened Basics
  import opened SpanCompression
  import opened SpanLife
  import opened DroppedSpansStats

  // ----- no span is lost or duplicated -----

  ghost predicate InQueue(st: State, i: nat) {
    exists k :: 0 <= k < |st.queue| && st.queue[k] == i
  }

  ghost predicate InCache(st: State, i: nat) {
    st.txCache == Some(i) || exists p :: 0 <= p < |st.cache| && st.cache[p] == Some(i)
  }

  /** Span i went into a composite headed by another span. */
  ghost predicate InComposite(st: State, i: nat) {
    exists h, j :: 0 <= h < |st.group| && 1 <= j < |st.group[h].members| && st.group[h].members[j] == i
  }

  /** A span is in the queue, in a cache or in a composite just when its fate says so; so
      in at most one of them, and in none before it is ended. */
  lemma InOnePlace(st: State, i: nat)
    requires Good(st) && i < |st.fate|
    ensures InQueue(st, i) <==> st.fate[i].Reported?
    ensures InCache(st, i) <==> st.fate[i].Cached?
    ensures InComposite(st, i) <==> st.fate[i].Absorbed?
  {
    hide Counters, Faithful;
    if st.fate[i].Absorbed? {
      assert st.group[st.fate[i].head].members[st.fate[i].at] == i;
    }
    if InComposite(st, i) {
      var h, j :| 0 <= h < |st.group| && 1 <= j < |st.group[h].members| && st.group[h].members[j] == i;
      assert GroupOk(st.fate, st.group, h);
      assert MemberAt(st.fate, st.group, h, j);
    }
  }

  /** And in that place only once: one event, one cache slot, one composite. */
  lemma OnceOnly(st: State)
    requires Good(st)
    ensures forall k, l :: 0 <= k < l < |st.queue| ==> st.queue[k] != st.queue[l]
    ensures forall p, q :: 0 <= p < q < |st.cache| && st.cache[p].Some? ==> st.cache[p] != st.cache[q]
    ensures forall p :: 0 <= p < |st.cache| && st.cache[p].Some? ==> st.cache[p] != st.txCache
  {
  }

  lemma OneComposite(st: State, h: nat, j: nat, g: nat, k: nat)
    requires Good(st) && h < |st.group| && g < |st.group|
    requires 1 <= j < |st.group[h].members| && 1 <= k < |st.group[g].members|
    requires st.group[h].members[j] == st.group[g].members[k]
    ensures h == g && j == k
  {
    assert GroupOk(st.fate, st.group, h) && GroupOk(st.fate, st.group, g);
    assert MemberAt(st.fate, st.group, h, j) && MemberAt(st.fate, st.group, g, k);
  }

  /** A cached span holds no span itself, unless a child was started irregularly. */
  lemma CachedHoldsNothing(st: State, i: nat)
    requires Good(st) && i < |st.fate| && st.fate[i].Cached? && !st.rec[i].irregular
    ensures st.cache[i].None?
  {
    assert Ok(i, st.born[i], st.rec[i], st.fate[i], st.cache[i], st.group[i], st.options);
  }

  /** A span that has ended holds no child, unless it was dropped when it started, or returned
      early as mismatched, or a child of it was started irregularly. */
  lemma HoldsNothing(st: State, i: nat)
    requires Good(st) && i < |st.fate| && !st.fate[i].Running? && !Leaky(st.born[i], st.rec[i], st.fate[i])
    ensures st.cache[i].None?
  {
    assert Ok(i, st.born[i], st.rec[i], st.fate[i], st.cache[i], st.group[i], st.options);
  }

  /** What holds a span from its start on has ended, and is none of those that may leave
      children behind. */
  ghost predicate HolderDone(st: State, i: nat)
    requires WellFormed(st) && i < |st.fate|
  {
    match st.born[i].parent
    case None => st.ended
    case Some(p) => !st.fate[p].Running? && !Leaky(st.born[p], st.rec[p], st.fate[p])
  }

  /** So no child of such a span is left in its cache: whatever became of all others, an ended
      span was reported, or absorbed, or dropped as too fast or with its transaction, or else
      was dropped at its start or returned early itself. */
  lemma NothingLeftBehind(st: State, i: nat)
    requires Good(st) && i < |st.fate| && !st.fate[i].Running? && HolderDone(st, i)
    ensures !st.fate[i].Cached?
    ensures || st.fate[i].Reported? || st.fate[i].Absorbed? || st.fate[i].FastDropped? || st.fate[i].Discarded?
            || st.fate[i].Mismatched? || (st.fate[i].Unrecorded? && st.born[i].StartDropped())
  {
    assert Ok(i, st.born[i], st.rec[i], st.fate[i], st.cache[i], st.group[i], st.options);
    if st.born[i].parent.Some? {
      HoldsNothing(st, st.born[i].parent.value);
    }
  }

  /** The composite of a reported or dropped span accounts exactly for its members, all of
      them spans that were absorbed by it and no other. */
  lemma CompositesAreExact(st: State, i: nat)
    requires Good(st) && i < |st.fate| && (st.fate[i].Reported? || st.fate[i].FastDropped?)
    ensures var g, c := st.group[i], st.rec[i].composite;
            && |g.members| == |g.infos| >= 1 && g.members[0] == i
            && (|g.infos| == 1 ==> c.Empty())
            && (|g.infos| > 1 ==>
                  && c.count == |g.infos| && c.sum == SumDurations(g.infos)
                  && Homogeneous(g.infos, c.strategy, st.options)
                  && st.rec[i].info.duration == LatestEnd(g.infos[1..]) - st.born[i].start)
            && forall j :: 1 <= j < |g.members| ==>
                 g.members[j] < |st.fate| && st.fate[g.members[j]].Absorbed? && st.rec[g.members[j]].info == g.infos[j]
  {
    assert Ok(i, st.born[i], st.rec[i], st.fate[i], st.cache[i], st.group[i], st.options);
    var g := st.group[i];
    assert GroupOk(st.fate, st.group, i);
    forall j | 1 <= j < |g.members|
      ensures g.members[j] < |st.fate| && st.fate[g.members[j]].Absorbed? && st.rec[g.members[j]].info == g.infos[j]
    {
      assert MemberAt(st.fate, st.group, i, j);
      var a := g.members[j];
      assert Ok(a, st.born[a], st.rec[a], st.fate[a], st.cache[a], st.group[a], st.options);
    }
  }

  // ----- the counters -----

  /** How many spans were started while their transaction was recorded. */
  function Recorded(born: seq<Birth>): nat {
    if born == [] then 0 else Recorded(born[..|born| - 1]) + if born[|born| - 1].recorded then 1 else 0
  }

  lemma {:induction false} EachIsCounted(born: seq<Birth>, fate: seq<Fate>)
    requires |born| == |fate|
    ensures Count(born, fate, CountsCreated) + Count(born, fate, CountsDropped) + Count(born, fate, CountsAbsorbed)
            == Recorded(born)
  {
    if born != [] {
      EachIsCounted(born[..|born| - 1], fate[..|born| - 1]);
    }
  }

  /** While the transaction is live, each recorded span is counted as created or as dropped,
      or else was absorbed; the first counter never passes the limit. */
  lemma CounterLaw(st: State)
    requires Good(st) && !st.ended
    ensures st.spansCreated + st.spansDropped + Count(st.born, st.fate, CountsAbsorbed) == Recorded(st.born)
    ensures 0 <= st.spansCreated && (st.maxSpans >= 0 ==> st.spansCreated <= st.maxSpans)
    ensures Faithful(st.stats, st.drops)
  {
    EachIsCounted(st.born, st.fate);
  }

  // ----- what one End does -----

  /** Whether span i, just settled, gets to the cache of its parent or transaction. */
  predicate GetsToCache(st: State, i: nat)
    requires WellFormed(st) && i < |st.fate|
  {
    && st.born[i].options.enabled && st.cache[i].None?
    && (if st.born[i].parent.Some? then !st.fate[st.born[i].parent.value].Gone() else !st.ended)
    && Eligible(st.born[i], st.rec[i])
  }

  lemma AttemptOutcome(st: State, i: nat)
    requires WellFormed(st) && i < |st.fate| && st.fate[i].InHand?
    ensures var a, c := AttemptCompress(st, i), CacheOf(st, st.born[i].parent);
            && (a.cached <==> GetsToCache(st, i))
            && (a.cached ==> a.st.fate[i] == if c.Some? && Accepts(st, c.value, i)
                                             then Absorbed(c.value, |st.group[c.value].members|) else Cached)
  {
  }

  /** A span is absorbed exactly when it gets to a cache whose span accepts it, cached
      exactly when it gets to another, and disposed of otherwise. */
  lemma EndOutcome(st: State, i: nat, s: Settled)
    requires Good(st) && i < |st.fate| && st.fate[i].Running?
    ensures var st0, st' := Settle(st, i, s), EndSpan(st, i, false, s);
            var c := CacheOf(st0, st0.born[i].parent);
            var fits := c.Some? && c.value < |st0.fate| && Accepts(st0, c.value, i);
            && |st'.fate| == |st.fate|
            && (st'.fate[i].Absorbed? <==> GetsToCache(st0, i) && fits)
            && (st'.fate[i].Cached? <==> GetsToCache(st0, i) && !fits)
            && (st'.fate[i].Absorbed? ==> st'.fate[i].head == c.value)
  {
    EndSettled(st, i, s);
    AttemptOutcome(Settle(st, i, s), i);
  }

  // ----- what End does not flush -----

  lemma AttemptTouches(st: State, i: nat)
    requires WellFormed(st) && i < |st.fate| && st.born[i].parent != Some(i)
    ensures var a := AttemptCompress(st, i);
            && a.st.cache[i] == (if st.born[i].options.enabled then None else st.cache[i])
            && forall p :: 0 <= p < |st.cache| && p != i && st.fate[p].Gone() ==> a.st.cache[p] == st.cache[p]
  {
    hide Choose, Absorb, EvictedInfo;
  }

  lemma SettledEndFlushes(st: State, i: nat, s: Settled)
    requires Good(st) && i < |st.fate| && st.fate[i].Running?
    ensures var st' := EndSpan(st, i, false, s);
            && |st'.cache| == |st.cache|
            && st'.cache[i] == (if st.born[i].options.enabled then None else st.cache[i])
            && forall p :: 0 <= p < |st.cache| && st.fate[p].Gone() ==> st'.cache[p] == st.cache[p]
  {
    var st0 := Settle(st, i, s);
    AttemptTouches(st0, i);
    assert EndSpan(st, i, false, s).cache == AttemptCompress(st0, i).st.cache;
  }

  /** Ending a span flushes its cache exactly when its compression options are enabled, which
      is to say that it was not dropped when it started, and it is not returned early. */
  lemma FlushedExactlyWhen(st: State, i: nat, mismatched: bool, s: Settled)
    requires Good(st) && i < |st.fate| && st.fate[i].Running? && st.cache[i].Some?
    ensures var st' := EndSpan(st, i, mismatched, s);
            && |st'.cache| == |st.cache|
            && (st'.cache[i].None? <==> !mismatched && !st.born[i].StartDropped())
            && (st'.cache[i].Some? ==> st'.cache[i] == st.cache[i])
  {
    CacheImpliesEnabled(st, i);
    assert Ok(i, st.born[i], st.rec[i], st.fate[i], st.cache[i], st.group[i], st.options);
    if !mismatched {
      SettledEndFlushes(st, i, s);
    }
  }

  lemma EndTxKeepsGone(st: State, p: nat)
    requires Good(st) && p < |st.fate| && st.fate[p].Gone()
    ensures var st' := EndTransaction(st);
            |st'.fate| == |st.fate| && st'.fate[p] == st.fate[p] && st'.cache == st.cache
  {
    if !st.ended && st.txCache.Some? {
      FinishTouchesOne(Evict(st, None), st.txCache.value);
    }
  }

  lemma EndKeepsGone(st: State, i: nat, mismatched: bool, s: Settled, p: nat)
    requires Good(st) && Enabled(st, End(i, mismatched, s)) && p < |st.fate| && st.fate[p].Gone()
    ensures var st' := EndSpan(st, i, mismatched, s);
            Shape(st') && |st'.fate| == |st.fate| && st'.fate[p] == st.fate[p] && st'.cache[p] == st.cache[p]
  {
    hide Links, Lives, Absorption, Family, Reports, Counters, Faithful;
    if st.fate[i].Running? {
      EndKeepsInv(st, i, mismatched, s);
      if !mismatched {
        SettledEndFlushes(st, i, s);
      }
    }
  }

  /** Nothing touches the cache of a span whose data is gone. */
  lemma GoneKeepsCache(st: State, op: Op, p: nat)
    requires Good(st) && Enabled(st, op) && p < |st.fate| && st.fate[p].Gone()
    ensures var st' := Step(st, op);
            p < |st'.fate| && p < |st'.cache| && st'.fate[p] == st.fate[p] && st'.cache[p] == st.cache[p]
  {
    match op {
      case Start(n) =>
      case TakeContext(i) =>
      case Set(i, s) =>
      case End(i, mismatched, s) => EndKeepsGone(st, i, mismatched, s, p);
      case EndTx => EndTxKeepsGone(st, p);
      case DiscardTx =>
    }
  }

  /** A child left behind is never reported: it stays in that cache through every run. */
  lemma {:induction false} LeftBehindForever(st: State, ops: seq<Op>, st': State, p: nat, c: nat)
    requires Good(st) && Reaches(st, ops, st')
    requires p < |st.fate| && st.fate[p].Gone() && st.cache[p] == Some(c)
    ensures Good(st') && p < |st'.cache| && st'.cache[p] == Some(c)
    ensures c < |st'.fate| && st'.fate[c].Cached? && !InQueue(st', c)
    decreases |ops|
  {
    if ops == [] {
      InOnePlace(st, c);
    } else {
      StepKeepsInv(st, ops[0]);
      GoneKeepsCache(st, ops[0], p);
      LeftBehindForever(Step(st, ops[0]), ops[1..], st', p, c);
    }
  }

  // ----- exactly when a child that is held is lost -----

  /** Whether the step takes the child that p holds out of p's cache: the End of p itself, unless
      p was dropped when it started or is returned early; or that of another child of p while p is
      not gone, if it is neither absorbed by the one that is held nor waits for children itself. */
  predicate Flushes(st: State, op: Op, p: nat)
    requires WellFormed(st) && Enabled(st, op) && p < |st.fate| && st.cache[p].Some?
  {
    && op.End? && !op.mismatched && st.fate[op.i].Running? && !st.born[op.i].StartDropped()
    && (op.i == p || Displaces(Settle(st, op.i, op.s), op.i, p))
  }

  /** Whether span i, just settled, takes the place of the one that its parent p holds, or is
      finished after it. */
  predicate Displaces(st: State, i: nat, p: nat)
    requires Shape(st) && i < |st.fate| && p < |st.fate| && st.cache[p].Some? && st.cache[p].value < |st.fate|
  {
    && st.born[i].parent == Some(p) && !st.fate[p].Gone() && st.cache[i].None?
    && !(Eligible(st.born[i], st.rec[i]) && Accepts(st, st.cache[p].value, i))
  }

  lemma AttemptFlushes(st: State, i: nat, p: nat)
    requires WellFormed(st) && i < |st.fate| && st.born[i].parent != Some(i)
    requires p < |st.fate| && st.cache[p].Some? && st.cache[p].value != i
    ensures var a := AttemptCompress(st, i);
            a.st.cache[p] != st.cache[p] <==> st.born[i].options.enabled && (i == p || Displaces(st, i, p))
  {
    hide Choose, Absorb, EvictedInfo;
  }

  lemma EndFlushes(st: State, i: nat, s: Settled, p: nat)
    requires Good(st) && i < |st.fate| && st.fate[i].Running? && p < |st.fate| && st.cache[p].Some?
    ensures var st' := EndSpan(st, i, false, s);
            |st'.cache| == |st.cache| && (st'.cache[p] != st.cache[p] <==> Flushes(st, End(i, false, s), p))
  {
    var st0 := Settle(st, i, s);
    assert Ok(i, st.born[i], st.rec[i], st.fate[i], st.cache[i], st.group[i], st.options);
    CacheImpliesEnabled(st, p);
    AttemptFlushes(st0, i, p);
    assert EndSpan(st, i, false, s).cache == AttemptCompress(st0, i).st.cache;
  }

  lemma StepGrows(st: State, op: Op)
    requires Good(st) && Enabled(st, op)
    ensures |Step(st, op).fate| >= |st.fate|
    ensures forall i :: 0 <= i < |st.born| ==> i < |Step(st, op).born| && Step(st, op).born[i] == st.born[i]
  {
    if op.End? && st.fate[op.i].Running? {
      EndKeepsInv(st, op.i, op.mismatched, op.s);
    }
  }

  lemma EndHeld(st: State, op: Op, p: nat)
    requires Good(st) && Enabled(st, op) && op.End? && p < |st.fate| && st.cache[p].Some?
    ensures var st', c := Step(st, op), st.cache[p].value;
            && |st'.cache| == |st.cache| && c < |st'.fate|
            && (st'.cache[p] != st.cache[p] <==> Flushes(st, op, p))
            && (st'.fate[c].Cached? || st'.fate[c].Gone())
  {
    hide Ok, CompositeOk, Absorption, Family, Reports, Counters, Faithful, Flushes;
    InOnePlace(st, st.cache[p].value);
    if st.fate[op.i].Running? {
      EndKeepsInv(st, op.i, op.mismatched, op.s);
      if op.mismatched {
        NoFlush(st, op, p);
      } else {
        EndFlushes(st, op.i, op.s, p);
      }
    } else {
      NoFlush(st, op, p);
    }
  }

  lemma NoFlush(st: State, op: Op, p: nat)
    requires WellFormed(st) && Enabled(st, op) && p < |st.fate| && st.cache[p].Some?
    requires op.End? ==> op.mismatched || !st.fate[op.i].Running?
    ensures !Flushes(st, op, p)
  {
  }

  lemma OthersKeepHeld(st: State, op: Op, p: nat)
    requires Good(st) && Enabled(st, op) && !op.End? && p < |st.fate| && st.cache[p].Some?
    ensures var st', c := Step(st, op), st.cache[p].value;
            && p < |st'.cache| && st'.cache[p] == st.cache[p] && c < |st'.fate| && st'.fate[c].Cached?
  {
    hide Ok, CompositeOk, Absorption, Family, Reports, Counters, Faithful;
    StepKeepsInv(st, op);
    if op == EndTx && !st.ended && st.txCache.Some? {
      FinishTouchesOne(Evict(st, None), st.txCache.value);
    }
  }

  /** No other step touches what p holds, whether p is running, cached itself, absorbed or gone;
      and a child taken out is gone for good. */
  lemma HeldUntilFlushed(st: State, op: Op, p: nat)
    requires Good(st) && Enabled(st, op) && p < |st.fate| && st.cache[p].Some?
    ensures var st', c := Step(st, op), st.cache[p].value;
            && p < |st'.cache| && c < |st'.fate|
            && (st'.cache[p] != st.cache[p] <==> Flushes(st, op, p))
            && (if Flushes(st, op, p) then st'.fate[c].Gone() else st'.fate[c].Cached?)
  {
    var st', c := Step(st, op), st.cache[p].value;
    hide Ok, CompositeOk, Absorption, Family, Reports, Counters, Faithful;
    StepKeepsInv(st, op);
    StepGrows(st, op);
    if op.End? {
      EndHeld(st, op, p);
    } else {
      OthersKeepHeld(st, op, p);
    }
  }

  /** So what a cached or absorbed span holds stays but for the End of another of its children. */
  lemma LingeringKeepsCache(st: State, op: Op, p: nat)
    requires Good(st) && Enabled(st, op) && p < |st.fate| && st.fate[p].Lingering() && st.cache[p].Some?
    requires !(op.End? && st.born[op.i].parent == Some(p))
    ensures p < |Step(st, op).cache| && Step(st, op).cache[p] == st.cache[p]
  {
    HeldUntilFlushed(st, op, p);
  }

  /** No step of the run takes the child out of p's cache. */
  ghost predicate NeverFlushed(st: State, ops: seq<Op>, p: nat)
    decreases |ops|
  {
    ops != [] ==>
      && WellFormed(st) && Enabled(st, ops[0]) && p < |st.fate| && st.cache[p].Some?
      && !Flushes(st, ops[0], p) && NeverFlushed(Step(st, ops[0]), ops[1..], p)
  }

  lemma {:induction false} GoneForGood(st: State, ops: seq<Op>, st': State, c: nat)
    requires Good(st) && Reaches(st, ops, st') && c < |st.fate| && st.fate[c].Gone()
    ensures c < |st'.fate| && st'.fate[c] == st.fate[c]
    decreases |ops|
  {
    if ops != [] {
      StepKeepsInv(st, ops[0]);
      GoneKeepsCache(st, ops[0], c);
      GoneForGood(Step(st, ops[0]), ops[1..], st', c);
    }
  }

  /** Over every run, a child held by p is still held, and not reported, if and only if no step
      of the run flushed it; and else it is gone. */
  lemma {:induction false} LostExactlyWhen(st: State, ops: seq<Op>, st': State, p: nat, c: nat)
    requires Good(st) && Reaches(st, ops, st') && p < |st.fate| && st.cache[p] == Some(c)
    ensures Good(st') && p < |st'.fate| && c < |st'.fate|
    ensures NeverFlushed(st, ops, p) <==> st'.cache[p] == Some(c)
    ensures NeverFlushed(st, ops, p) <==> st'.fate[c].Cached?
    ensures !NeverFlushed(st, ops, p) <==> st'.fate[c].Gone()
    decreases |ops|
  {
    if ops == [] {
      InOnePlace(st, c);
    } else {
      var next := Step(st, ops[0]);
      StepKeepsInv(st, ops[0]);
      HeldUntilFlushed(st, ops[0], p);
      if Flushes(st, ops[0], p) {
        GoneForGood(next, ops[1..], st', c);
        RunsKeepInv(next, ops[1..], st');
        SizeGrows(next, ops[1..], st');
        if st'.cache[p] == Some(c) {
          InOnePlace(st', c);
        }
      } else {
        LostExactlyWhen(next, ops[1..], st', p, c);
      }
    }
  }

  lemma {:induction false} SizeGrows(st: State, ops: seq<Op>, st': State)
    requires Good(st) && Reaches(st, ops, st')
    ensures |st'.fate| >= |st.fate|
    decreases |ops|
  {
    if ops != [] {
      StepKeepsInv(st, ops[0]);
      StepGrows(st, ops[0]);
      SizeGrows(Step(st, ops[0]), ops[1..], st');
    }
  }

  /** A span gets into the cache of its parent p only by its End, while p is not gone. */
  lemma HeldFrom(st: State, op: Op, p: nat, c: nat)
    requires Good(st) && Enabled(st, op) && p < |st.fate| && p < |Step(st, op).cache| && Step(st, op).cache[p] == Some(c)
    ensures st.cache[p] == Some(c) || (op.End? && op.i == c && st.born[c].parent == Some(p) && !st.fate[p].Gone())
  {
    hide Ok, CompositeOk, Absorption, Family, Reports, Counters, Faithful;
    var st' := Step(st, op);
    StepKeepsInv(st, op);
    InOnePlace(st', c);
    if st.fate[p].Gone() {
      GoneKeepsCache(st, op, p);
    }
    if op.End? {
      EndKeepsInv(st, op.i, op.mismatched, op.s);
      if c < |st.fate| && st.fate[c].Cached? {
        InOnePlace(st, c);
      }
    } else {
      OthersCacheNothing(st, op, c);
    }
  }

  lemma OthersCacheNothing(st: State, op: Op, c: nat)
    requires Good(st) && Enabled(st, op) && !op.End? && c < |Step(st, op).fate| && Step(st, op).fate[c].Cached?
    ensures c < |st.fate| && st.fate[c].Cached? && Step(st, op).born[c] == st.born[c]
  {
    hide Ok, CompositeOk, Absorption, Family, Reports, Counters, Faithful;
    if op == EndTx && !st.ended && st.txCache.Some? {
      FinishTouchesOne(Evict(st, None), st.txCache.value);
    }
  }

  /** A span that stops running has ended, and holds nothing then unless it was dropped when it
      started or is returned early. */
  lemma StopsEmpty(st: State, op: Op, p: nat)
    requires Good(st) && Enabled(st, op) && p < |st.fate| && st.fate[p].Running?
    ensures var st' := Step(st, op);
            && p < |st'.fate| && p < |st'.cache|
            && (!st'.fate[p].Running? && !st'.fate[p].Mismatched? && !st.born[p].StartDropped() ==> st'.cache[p].None?)
            && (!st'.fate[p].Running? ==> op.End? && op.i == p)
  {
    hide Ok, CompositeOk, Absorption, Family, Reports, Counters, Faithful;
    StepKeepsInv(st, op);
    StepGrows(st, op);
    if op.End? {
      EndKeepsInv(st, op.i, op.mismatched, op.s);
      if op.i == p && !op.mismatched {
        SettledEndFlushes(st, p, op.s);
        if !st.born[p].StartDropped() && st.cache[p].Some? {
          OrdinaryIsEnabled(st, p);
        }
      }
    } else {
      OthersLetRun(st, op, p);
    }
  }

  /** What p holds keeps its options enabled, so p, unless dropped when it started, flushes it. */
  lemma OrdinaryIsEnabled(st: State, p: nat)
    requires Good(st) && p < |st.fate| && !st.born[p].StartDropped() && st.cache[p].Some?
    ensures st.born[p].options.enabled
  {
    CacheImpliesEnabled(st, p);
    assert Ok(p, st.born[p], st.rec[p], st.fate[p], st.cache[p], st.group[p], st.options);
  }

  lemma OthersLetRun(st: State, op: Op, p: nat)
    requires Good(st) && Enabled(st, op) && !op.End? && p < |st.fate| && st.fate[p].Running?
    ensures p < |Step(st, op).fate| && Step(st, op).fate[p].Running?
  {
    hide Ok, CompositeOk, Absorption, Family, Reports, Counters, Faithful;
    if op == EndTx && !st.ended && st.txCache.Some? {
      FinishTouchesOne(Evict(st, None), st.txCache.value);
    }
  }

  /** Some step of the run is the End of c, which goes into the cache of p though p has ended, p
      being cached or absorbed itself; and no later step flushes it. */
  ghost predicate CaughtLate(st: State, ops: seq<Op>, p: nat, c: nat)
    decreases |ops|
  {
    && ops != [] && WellFormed(st) && Enabled(st, ops[0])
    && ((CaughtNow(st, ops[0], p, c) && NeverFlushed(Step(st, ops[0]), ops[1..], p)) ||
        CaughtLate(Step(st, ops[0]), ops[1..], p, c))
  }

  ghost predicate CaughtNow(st: State, op: Op, p: nat, c: nat)
    requires WellFormed(st) && Enabled(st, op)
  {
    && p < |st.fate| && st.fate[p].Lingering() && op.End? && op.i == c
    && p < |Step(st, op).cache| && Step(st, op).cache[p] == Some(c)
  }

  /** p has ended, and has held c since. */
  ghost predicate Holds(st: State, ops: seq<Op>, p: nat, c: nat) {
    Shape(st) && p < |st.fate| && !st.fate[p].Running? && st.cache[p] == Some(c) && NeverFlushed(st, ops, p)
  }

  lemma NothingCaught(st: State, p: nat, c: nat)
    requires Shape(st) && p < |st.fate| && !st.fate[p].Running?
    ensures Holds(st, [], p, c) <==> st.cache[p] == Some(c)
  {
  }

  /** One step of the argument below. */
  lemma HoldsFrom(st: State, ops: seq<Op>, p: nat, c: nat)
    requires Good(st) && ops != [] && Enabled(st, ops[0])
    requires p < |st.fate| ==> !st.born[p].StartDropped() && !st.fate[p].Mismatched?
    requires var st' := Step(st, ops[0]); p < |st'.fate| ==> !st'.fate[p].Mismatched?
    ensures Holds(Step(st, ops[0]), ops[1..], p, c) <==>
            Holds(st, ops, p, c) || (CaughtNow(st, ops[0], p, c) && NeverFlushed(Step(st, ops[0]), ops[1..], p))
  {
    hide Inv, Flushes;
    var next := Step(st, ops[0]);
    StepKeepsInv(st, ops[0]);
    StepGrows(st, ops[0]);
    if p < |st.fate| {
      if st.fate[p].Running? {
        StopsEmpty(st, ops[0], p);
      } else if st.cache[p] == Some(c) {
        HeldUntilFlushed(st, ops[0], p);
        EndedStaysEnded(st, ops[0], p);
      } else {
        EndedStaysEnded(st, ops[0], p);
        if next.cache[p] == Some(c) {
          HeldFrom(st, ops[0], p, c);
        }
      }
    } else {
      NewIsRunning(st, ops[0], p);
    }
  }

  lemma EndedStaysEnded(st: State, op: Op, p: nat)
    requires Good(st) && Enabled(st, op) && p < |st.fate| && !st.fate[p].Running?
    ensures var st' := Step(st, op); p < |st'.fate| && p < |st'.cache| && !st'.fate[p].Running? && WellFormed(st')
    ensures st.fate[p].Gone() || st.fate[p].Lingering()
  {
    hide Ok, CompositeOk, Absorption, Family, Reports, Counters, Faithful;
    StepKeepsInv(st, op);
    StepGrows(st, op);
    if op.End? {
      EndKeepsInv(st, op.i, op.mismatched, op.s);
    } else if op == EndTx && !st.ended && st.txCache.Some? {
      FinishTouchesOne(Evict(st, None), st.txCache.value);
    }
  }

  lemma NewIsRunning(st: State, op: Op, p: nat)
    requires Good(st) && Enabled(st, op) && p >= |st.fate|
    ensures p < |Step(st, op).fate| ==> Step(st, op).fate[p].Running?
  {
    hide Ok, CompositeOk, Absorption, Family, Reports, Counters, Faithful;
    if op.End? {
      EndKeepsInv(st, op.i, op.mismatched, op.s);
    } else if op == EndTx && !st.ended && st.txCache.Some? {
      FinishTouchesOne(Evict(st, None), st.txCache.value);
    }
  }

  /** Over every run: a parent that has ended, neither dropped when it started nor returned early,
      holds c at the end of the run if and only if it did at the beginning, ended already, or c
      was caught late, and no step flushed it. */
  lemma {:induction false} HeldExactlyWhen(st: State, ops: seq<Op>, st': State, p: nat, c: nat)
    requires Good(st) && Reaches(st, ops, st') && p < |st'.fate| && |st'.cache| == |st'.fate| == |st'.born|
    requires !st'.fate[p].Running? && !st'.fate[p].Mismatched? && !st'.born[p].StartDropped()
    ensures st'.cache[p] == Some(c) <==> Holds(st, ops, p, c) || CaughtLate(st, ops, p, c)
    decreases |ops|
  {
    hide Inv, Flushes, CaughtNow, Holds, EndSpan, StartSpan, EndTransaction, DiscardTransaction;
    if ops == [] {
      NothingCaught(st, p, c);
    } else {
      var next := Step(st, ops[0]);
      StepKeepsInv(st, ops[0]);
      HeldExactlyWhen(next, ops[1..], st', p, c);
      if p < |st.fate| {
        SameInTheEnd(st, ops, st', p);
      }
      if p < |next.fate| {
        SameInTheEnd(next, ops[1..], st', p);
      }
      HoldsFrom(st, ops, p, c);
    }
  }

  /** Birth and early return are for ever. */
  lemma {:induction false} SameInTheEnd(st: State, ops: seq<Op>, st': State, p: nat)
    requires Good(st) && Reaches(st, ops, st') && p < |st.fate|
    ensures p < |st'.fate| && p < |st'.born| && st'.born[p] == st.born[p]
    ensures st.fate[p].Mismatched? ==> st'.fate[p].Mismatched?
    decreases |ops|
  {
    if ops != [] {
      StepKeepsInv(st, ops[0]);
      StepGrows(st, ops[0]);
      if st.fate[p].Gone() {
        GoneKeepsCache(st, ops[0], p);
      }
      SameInTheEnd(Step(st, ops[0]), ops[1..], st', p);
    }
  }

  /** From its start on, such a parent holds c in the end if and only if c was caught late. */
  lemma LostToOrdinaryExactly(st: State, ops: seq<Op>, st': State, p: nat, c: nat)
    requires Good(st) && Reaches(st, ops, st') && (p < |st.fate| ==> st.fate[p].Running?)
    requires p < |st'.fate| && |st'.cache| == |st'.fate| == |st'.born|
    requires !st'.fate[p].Running? && !st'.fate[p].Mismatched? && !st'.born[p].StartDropped()
    ensures st'.cache[p] == Some(c) <==> CaughtLate(st, ops, p, c)
  {
    HeldExactlyWhen(st, ops, st', p, c);
  }

  // ----- whose children cannot be caught late -----

  lemma FinishKeepsPropagated(st: State, i: nat, p: nat)
    requires Shape(st) && i < |st.fate| && p < |st.fate|
    ensures Finish(st, i).rec[p].propagated == st.rec[p].propagated
  {
  }

  lemma AttemptKeepsPropagated(st: State, i: nat, p: nat)
    requires WellFormed(st) && i < |st.fate| && p < |st.fate|
    ensures AttemptCompress(st, i).st.rec[p].propagated == st.rec[p].propagated
  {
    hide Choose, Accepts, Eligible;
  }

  lemma EndKeepsPropagated(st: State, i: nat, mismatched: bool, s: Settled, p: nat)
    requires WellFormed(st) && i < |st.fate| && p < |st.fate|
    ensures var st' := EndSpan(st, i, mismatched, s); p < |st'.rec| && st'.rec[p].propagated == st.rec[p].propagated
  {
    hide AttemptCompress, Finish;
    if !st.fate[i].Gone() && !mismatched {
      var st0 := Settle(st, i, s);
      var a := AttemptCompress(st0, i);
      AttemptKeepsPropagated(st0, i, p);
      if a.evicted.Some? {
        FinishKeepsPropagated(a.st, a.evicted.value, p);
      }
      FinishKeepsPropagated(if a.evicted.Some? then Finish(a.st, a.evicted.value) else a.st, i, p);
    }
  }

  lemma EndPropagated(st: State, i: nat, mismatched: bool, s: Settled, p: nat)
    requires Good(st) && Enabled(st, End(i, mismatched, s))
    requires p < |st.fate| && st.rec[p].propagated && !st.fate[p].Lingering()
    ensures var st' := EndSpan(st, i, mismatched, s);
            p < |st'.fate| && p < |st'.rec| && st'.rec[p].propagated && !st'.fate[p].Lingering()
  {
    hide Ok, CompositeOk, Absorption, Family, Reports, Counters, Faithful, Links, Lives, Conclude, AttemptCompress;
    EndKeepsPropagated(st, i, mismatched, s, p);
    EndKeepsInv(st, i, mismatched, s);
    if i == p && st.fate[p].Running? && !mismatched {
      EndOutcome(st, p, s);
    }
  }

  /** A propagated span that is neither cached nor absorbed never will be. */
  lemma PropagatedStays(st: State, op: Op, p: nat)
    requires Good(st) && Enabled(st, op) && p < |st.fate| && st.rec[p].propagated && !st.fate[p].Lingering()
    ensures var st' := Step(st, op);
            p < |st'.fate| && p < |st'.rec| && st'.rec[p].propagated && !st'.fate[p].Lingering()
  {
    hide Ok, CompositeOk, Absorption, Family, Reports, Counters, Faithful;
    StepKeepsInv(st, op);
    StepGrows(st, op);
    if op.End? {
      EndPropagated(st, op.i, op.mismatched, op.s, p);
    } else if op == EndTx && !st.ended && st.txCache.Some? {
      EvictKeepsPropagated(st, p);
      FinishKeepsPropagated(Evict(st, None), st.txCache.value, p);
      FinishTouchesOne(Evict(st, None), st.txCache.value);
    }
  }

  lemma EvictKeepsPropagated(st: State, p: nat)
    requires WellFormed(st) && p < |st.fate|
    ensures Evict(st, None).rec[p].propagated == st.rec[p].propagated
  {
  }

  lemma {:induction false} NeverLingers(st: State, ops: seq<Op>, st': State, p: nat)
    requires Good(st) && Reaches(st, ops, st')
    requires p < |st.fate| && st.rec[p].propagated && !st.fate[p].Lingering()
    ensures p < |st'.fate| && !st'.fate[p].Lingering()
    decreases |ops|
  {
    if ops != [] {
      StepKeepsInv(st, ops[0]);
      PropagatedStays(st, ops[0], p);
      NeverLingers(Step(st, ops[0]), ops[1..], st', p);
    }
  }

  /** Once a child is started in the ordinary way under a span that is running, that span is
      cached or absorbed in no state of any run: so no child of it is caught late. */
  lemma OrdinaryChildSaves(st: State, n: NewSpan, ops: seq<Op>, st': State, p: nat)
    requires Good(st) && n.parent == Some(p) && p < |st.fate| && st.fate[p].Running? && n.explicitParent.None?
    requires Reaches(StartSpan(st, n), ops, st')
    ensures p < |st'.fate| && !st'.fate[p].Lingering()
  {
    StartIsGood(st, n);
    NeverLingers(StartSpan(st, n), ops, st', p);
  }

  // ----- a run that leaves a child behind -----

  const OPTIONS := CompressionOptions(true, 50, 0)
  const QUERY := Settled("q", "db", "", Some(Target("db", "")), 1, "success", "db", Target("db", ""))

  function Exit(id: int, parent: Option<nat>): NewSpan {
    NewSpan(id, "q", "db", "", 0, true, parent, None)
  }

  function Inner(id: int): NewSpan {
    NewSpan(id, "work", "app", "", 0, false, None, None)
  }

  function S0(): State {
    Initial(TraceContext(1, true), true, OPTIONS, 2, 0)
  }

  lemma ReachesStep(st: State, ops: seq<Op>, st': State, op: Op)
    requires Reaches(st, ops, st') && WellFormed(st') && Enabled(st', op)
    ensures Reaches(st, ops + [op], Step(st', op))
    decreases |ops|
  {
    if ops == [] {
      assert ops + [op] == [op];
    } else {
      assert (ops + [op])[1..] == ops[1..] + [op];
      ReachesStep(Step(st, ops[0]), ops[1..], st', op);
    }
  }

  /** Span i is running, and may be compressed once it ends. */
  ghost predicate RunningExit(st: State, i: nat)
    requires Shape(st)
  {
    && i < |st.fate| && st.fate[i].Running? && st.cache[i].None?
    && st.born[i].exit && st.born[i].options == OPTIONS && !st.born[i].StartDropped() && st.born[i].parentID == 1
    && !st.rec[i].propagated && st.rec[i].composite == ZERO_COMPOSITE
  }

  /** Span 2 was dropped when it started, the limit of two spans being reached. */
  ghost predicate Setting(st: State) {
    && WellFormed(st) && |st.fate| >= 3 && !st.ended
    && st.context == TraceContext(1, true) && st.recording && st.options == OPTIONS && st.maxSpans == 2
    && st.born[0].parent.None? && st.born[1].parent.None? && st.born[2].parent.None?
    && st.born[2].overMax && st.born[2].recorded && st.born[2].options == DISABLED && st.born[2].id == 1
    && st.fate[2].Running? && !st.rec[2].propagated
  }

  /** Two exit spans fill the limit ... */
  lemma Stage0() returns (ops: seq<Op>, st: State)
    ensures Reaches(S0(), ops, st) && WellFormed(st) && |st.fate| == 2 && !st.ended
    ensures st.context == TraceContext(1, true) && st.recording && st.options == OPTIONS && st.maxSpans == 2
    ensures RunningExit(st, 0) && RunningExit(st, 1) && st.txCache.None? && st.spansCreated == 2
    ensures st.born[0].parent.None? && st.born[1].parent.None?
  {
    var st1 := StartSpan(S0(), Exit(2, None));
    st := StartSpan(st1, Exit(3, None));
    ops := [Start(Exit(2, None))];
    ReachesStep(S0(), [], S0(), ops[0]);
    ReachesStep(S0(), ops, st1, Start(Exit(3, None)));
    ops := ops + [Start(Exit(3, None))];
  }

  /** ... so a third span is dropped ... */
  lemma Stage1() returns (ops: seq<Op>, st: State)
    ensures Reaches(S0(), ops, st) && Setting(st) && |st.fate| == 3
    ensures RunningExit(st, 0) && RunningExit(st, 1) && st.txCache.None? && st.spansCreated == 2
    ensures st.cache[2].None?
  {
    hide Reaches;
    ops, st := Stage0();
    ReachesStep(S0(), ops, st, Start(Inner(4)));
    ops, st := ops + [Start(Inner(4))], StartSpan(st, Inner(4));
  }

  /** ... the first is cached ... */
  lemma Stage2(ops: seq<Op>, st: State) returns (ops': seq<Op>, st': State)
    requires Reaches(S0(), ops, st) && Setting(st) && |st.fate| == 3
    requires RunningExit(st, 0) && RunningExit(st, 1) && st.txCache.None? && st.spansCreated == 2
    requires st.cache[2].None?
    ensures Reaches(S0(), ops', st') && Setting(st') && |st'.fate| == 3
    ensures st'.fate[0].Cached? && RunningExit(st', 1) && st'.txCache == Some(0) && st'.spansCreated == 2
    ensures st'.born[0].options == OPTIONS && st'.rec[0].composite == ZERO_COMPOSITE && st'.cache[2].None?
    ensures st'.rec[0].info == Info(QUERY.name, QUERY.typ, QUERY.subtype, QUERY.target, 1, st'.born[0].start, 1)
  {
    hide Reaches;
    ReachesStep(S0(), ops, st, End(0, false, QUERY));
    ops' := ops + [End(0, false, QUERY)];
    st' := EndSpan(st, 0, false, QUERY);
    assert st' == PutInCache(Settle(st, 0, QUERY), None, 0);
  }

  /** ... the second is absorbed by it, which makes room again ... */
  lemma Stage3(ops: seq<Op>, st: State) returns (ops': seq<Op>, st': State)
    requires Reaches(S0(), ops, st) && Setting(st) && |st.fate| == 3
    requires st.fate[0].Cached? && RunningExit(st, 1) && st.txCache == Some(0) && st.spansCreated == 2
    requires st.born[0].options == OPTIONS && st.rec[0].composite == ZERO_COMPOSITE && st.cache[2].None?
    requires st.rec[0].info == Info(QUERY.name, QUERY.typ, QUERY.subtype, QUERY.target, 1, st.born[0].start, 1)
    ensures Reaches(S0(), ops', st') && Setting(st') && |st'.fate| == 3 && st'.spansCreated == 1
    ensures st'.cache[2].None?
  {
    hide Reaches;
    ReachesStep(S0(), ops, st, End(1, false, QUERY));
    ops' := ops + [End(1, false, QUERY)];
    st' := EndSpan(st, 1, false, QUERY);
    assert Accepts(Settle(st, 1, QUERY), 0, 1);
    assert st' == AbsorbInto(Settle(st, 1, QUERY), 0, 1);
  }

  /** ... so that a child of the dropped span is recorded, and cached in it ... */
  lemma Stage4(ops: seq<Op>, st: State) returns (ops': seq<Op>, st': State)
    requires Reaches(S0(), ops, st) && Setting(st) && |st.fate| == 3 && st.spansCreated == 1 && st.cache[2].None?
    ensures Reaches(S0(), ops', st') && WellFormed(st') && |st'.fate| == 4 && !st'.ended
    ensures RunningExit(st', 3) && st'.born[3].parent == Some(2)
    ensures st'.fate[2].Running? && st'.cache[2].None? && st'.born[2] == st.born[2]
  {
    hide Reaches;
    ReachesStep(S0(), ops, st, Start(Exit(5, Some(2))));
    ops' := ops + [Start(Exit(5, Some(2)))];
    st' := StartSpan(st, Exit(5, Some(2)));
  }

  lemma Stage5(ops: seq<Op>, st: State) returns (ops': seq<Op>, st': State)
    requires Reaches(S0(), ops, st) && WellFormed(st) && |st.fate| == 4 && !st.ended
    requires RunningExit(st, 3) && st.born[3].parent == Some(2)
    requires st.fate[2].Running? && st.cache[2].None? && st.born[2].StartDropped() && !st.born[2].options.enabled
    ensures Reaches(S0(), ops', st') && WellFormed(st') && |st'.fate| == 4 && st'.fate[2].Running?
    ensures st'.cache[2] == Some(3) && st'.born[2] == st.born[2]
  {
    hide Reaches;
    ReachesStep(S0(), ops, st, End(3, false, QUERY));
    ops' := ops + [End(3, false, QUERY)];
    st' := EndSpan(st, 3, false, QUERY);
    assert st' == PutInCache(Settle(st, 3, QUERY), Some(2), 3);
  }

  /** Some run of eight operations loses a span: its parent, dropped when it started because
      of the limit on spans, ends with the span in its cache. */
  lemma DroppedParentLosesChild() returns (ops: seq<Op>, st: State)
    ensures Reaches(S0(), ops, st)
    ensures |st.fate| == |st.cache| == 4 && st.fate[2] == Unrecorded && st.cache[2] == Some(3)
  {
    hide Reaches;
    ops, st := Stage1();
    ops, st := Stage2(ops, st);
    ops, st := Stage3(ops, st);
    ops, st := Stage4(ops, st);
    ops, st := Stage5(ops, st);
    ReachesStep(S0(), ops, st, End(2, false, QUERY));
    ops, st := ops + [End(2, false, QUERY)], EndSpan(st, 2, false, QUERY);
  }

  // ----- a run in which an irregular child is left behind -----

  /** A child of an exit span, started under an explicit trace context. */
  function Elsewhere(id: int, parent: nat): NewSpan {
    NewSpan(id, "q", "db", "", 0, true, Some(parent), Some(TraceContext(9, true)))
  }

  /** The parent of two exit spans runs, and has not been propagated. */
  lemma Irregular0() returns (ops: seq<Op>, st: State)
    ensures |ops| == 2
    ensures Reaches(S0(), ops, st) && WellFormed(st) && |st.fate| == 2 && !st.ended && st.recording
    ensures RunningExit(st, 0) && st.txCache.None? && st.born[0].parent.None? && st.born[0].exitSpanMinDuration == 0
    ensures st.fate[1].Running? && st.cache[1].None? && st.born[1].parent == Some(0) && st.born[1].exit
    ensures st.born[1].options == OPTIONS && !st.born[1].StartDropped() && !st.rec[1].propagated
  {
    var st1 := StartSpan(S0(), Exit(2, None));
    st := StartSpan(st1, Elsewhere(3, 0));
    ops := [Start(Exit(2, None))];
    ReachesStep(S0(), [], S0(), ops[0]);
    ReachesStep(S0(), ops, st1, Start(Elsewhere(3, 0)));
    ops := ops + [Start(Elsewhere(3, 0))];
  }

  /** A cached parent holds nothing yet, and has a child that runs and may be compressed. */
  ghost predicate ParentCached(st: State) {
    && WellFormed(st) && |st.fate| == 2 && !st.ended && st.recording
    && st.fate[0].Cached? && st.txCache == Some(0) && st.cache[0].None? && st.born[0].exitSpanMinDuration == 0
    && st.rec[0].composite == ZERO_COMPOSITE && st.rec[0].info.duration >= 0 && !st.born[0].StartDropped()
    && st.fate[1].Running? && st.cache[1].None? && st.born[1].parent == Some(0) && st.born[1].exit
    && st.born[1].options == OPTIONS && !st.rec[1].propagated
  }

  /** It ends and is cached itself ... */
  lemma Irregular1() returns (ops: seq<Op>, st: State)
    ensures |ops| == 3 && Reaches(S0(), ops, st) && ParentCached(st)
  {
    hide Reaches;
    var ops0, st0 := Irregular0();
    ReachesStep(S0(), ops0, st0, End(0, false, QUERY));
    ops, st := ops0 + [End(0, false, QUERY)], EndSpan(st0, 0, false, QUERY);
    assert st == PutInCache(Settle(st0, 0, QUERY), None, 0);
  }

  /** ... and then its child is cached in it. */
  lemma ChildCached(ops: seq<Op>, st: State) returns (st': State)
    requires Reaches(S0(), ops, st) && ParentCached(st)
    ensures Reaches(S0(), ops + [End(1, false, QUERY)], st') && WellFormed(st') && |st'.fate| == 2
    ensures !st'.ended && st'.recording && st'.txCache == Some(0) && st'.cache[0] == Some(1)
    ensures st'.born[0].exitSpanMinDuration == 0 && st'.rec[0].composite == ZERO_COMPOSITE
    ensures st'.rec[0].info.duration >= 0 && !st'.born[0].StartDropped()
  {
    hide Reaches;
    ReachesStep(S0(), ops, st, End(1, false, QUERY));
    st' := EndSpan(st, 1, false, QUERY);
    assert st' == PutInCache(Settle(st, 1, QUERY), Some(0), 1);
  }

  /** The end of the transaction reports the parent, and leaves the child. */
  lemma ChildLeft(ops: seq<Op>, st: State) returns (ops': seq<Op>, st': State)
    requires Reaches(S0(), ops, st) && ParentCached(st)
    ensures ops' == ops + [End(1, false, QUERY), EndTx] && Reaches(S0(), ops', st') && st'.ended
    ensures |st'.fate| == |st'.cache| == 2 && st'.fate[0].Reported? && st'.cache[0] == Some(1)
  {
    hide Reaches;
    var st1 := ChildCached(ops, st);
    ReachesStep(S0(), ops + [End(1, false, QUERY)], st1, EndTx);
    st' := EndTransaction(st1);
    ops' := ops + [End(1, false, QUERY)] + [EndTx];
  }

  /** Some run of five operations loses a span to a parent that is reported: its child was
      started under an explicit context, and ended after it. */
  lemma IrregularChildLeftBehind() returns (ops: seq<Op>, st: State)
    ensures Reaches(S0(), ops, st) && |ops| == 5 && st.ended
    ensures |st.fate| == |st.cache| == 2 && st.fate[0].Reported? && st.cache[0] == Some(1)
  {
    var ops0, st0 := Irregular1();
    ops, st := ChildLeft(ops0, st0);
  }

  lemma Late() returns (st: State)
    ensures Reaches(S0(), [Start(Exit(2, None))], st) && WellFormed(st) && |st.fate| == 1 && !st.ended && st.recording
    ensures st.context == TraceContext(1, true) && st.options == OPTIONS && st.maxSpans == 2 && st.spansCreated == 1
    ensures RunningExit(st, 0) && st.txCache.None? && st.born[0].parent.None? && st.born[0].exitSpanMinDuration == 0
  {
    hide Reaches;
    NoOps(S0());
    ReachesStep(S0(), [], S0(), Start(Exit(2, None)));
    assert [] + [Start(Exit(2, None))] == [Start(Exit(2, None))];
    st := StartSpan(S0(), Exit(2, None));
  }

  /** A span ends and is cached ... */
  lemma Late0() returns (ops: seq<Op>, st: State)
    ensures ops == [Start(Exit(2, None)), End(0, false, QUERY)]
    ensures Reaches(S0(), ops, st) && WellFormed(st) && |st.fate| == 1 && !st.ended && st.recording
    ensures st.context == TraceContext(1, true) && st.options == OPTIONS && st.maxSpans == 2 && st.spansCreated == 1
    ensures st.fate[0].Cached? && st.txCache == Some(0) && st.cache[0].None? && st.born[0].exitSpanMinDuration == 0
    ensures st.rec[0].composite == ZERO_COMPOSITE && st.rec[0].info.duration >= 0 && !st.born[0].StartDropped()
  {
    hide Reaches;
    var st1 := Late();
    ops := [Start(Exit(2, None))];
    ReachesStep(S0(), ops, st1, End(0, false, QUERY));
    ops, st := ops + [End(0, false, QUERY)], EndSpan(st1, 0, false, QUERY);
    assert st == PutInCache(Settle(st1, 0, QUERY), None, 0);
  }

  lemma NoOps(st: State)
    ensures Reaches(st, [], st)
  {
  }

  /** ... and a child is started all the same, in the ordinary way. */
  lemma Late1() returns (ops: seq<Op>, st: State)
    ensures ops == [Start(Exit(2, None)), End(0, false, QUERY), Start(Exit(3, Some(0)))]
    ensures Reaches(S0(), ops, st) && ParentCached(st)
  {
    hide Reaches;
    var ops0, st0 := Late0();
    ReachesStep(S0(), ops0, st0, Start(Exit(3, Some(0))));
    ops, st := ops0 + [Start(Exit(3, Some(0)))], StartSpan(st0, Exit(3, Some(0)));
  }

  /** Some run of five operations, in which no span is started under an explicit context, loses
      a span: it was started after the End of its parent, which was cached then. */
  lemma LateChildLeftBehind() returns (ops: seq<Op>, st: State)
    ensures Reaches(S0(), ops, st) && |ops| == 5 && st.ended
    ensures forall op :: op in ops && op.Start? ==> op.n.explicitParent.None?
    ensures |st.fate| == |st.cache| == 2 && st.fate[0].Reported? && st.cache[0] == Some(1)
  {
    var ops0, st0 := Late1();
    ops, st := ChildLeft(ops0, st0);
  }
}
