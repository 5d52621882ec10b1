/** The compression deciders and the algebra of composites (span_compressed.go).

    A composite keeps a count, a sum, a strategy and the latest end; `Exact` says
    what those four numbers must be for a given list of member spans. */
module SpanCompression {
  import opened Basics

  datatype Target = Target(typ: string, name: string)

  datatype Strategy = NoStrategy | ExactMatch | SameKind

  datatype CompressionOptions = CompressionOptions(
    enabled: bool, exactMatchMaxDuration: int, sameKindMaxDuration: int)
  {
    function MaxDuration(s: Strategy): int {
      if s == ExactMatch then exactMatchMaxDuration else sameKindMaxDuration
    }
  }

  const DISABLED := CompressionOptions(false, 0, 0)

  /** What the deciders look at in a span. */
  datatype Info = Info(
    name: string, typ: string, subtype: string, target: Option<Target>,
    parentID: int, start: Time, duration: int)
  {
    function End(): Time {
      start + duration
    }
  }

  /** `lastSiblingEnd` starts as the zero time, 0. */
  datatype CompositeSpan = CompositeSpan(lastSiblingEnd: Time, sum: int, count: int, strategy: Strategy) {
    predicate Empty() {
      count < 1
    }
  }

  const ZERO_COMPOSITE := CompositeSpan(0, 0, 0, NoStrategy)

  const COMPRESSED_SPAN_SAME_KIND_NAME := "Calls to "

  function CompositeName(target: Target): string {
    COMPRESSED_SPAN_SAME_KIND_NAME +
    if target.typ == "" then
      if target.name == "" then "unknown" else target.name
    else if target.name == "" then target.typ
    else target.typ + "/" + target.name
  }

  // ----- the deciders -----

  predicate IsSameKind(s: Info, sibling: Info) {
    && s.typ == sibling.typ
    && s.subtype == sibling.subtype
    && s.target.Some? && sibling.target.Some?
    && s.target == sibling.target
  }

  predicate IsExactMatch(s: Info, sibling: Info) {
    s.name == sibling.name && IsSameKind(s, sibling)
  }

  predicate DurationLowerOrEq(s: Info, sibling: Info, max: int) {
    s.duration <= max && sibling.duration <= max
  }

  function CanCompressStandard(s: Info, c: CompositeSpan, o: CompressionOptions, sibling: Info): Strategy {
    if !IsSameKind(s, sibling) then NoStrategy
    else
      var strategy := if IsExactMatch(s, sibling) then ExactMatch else SameKind;
      var maxDuration := if IsExactMatch(s, sibling) then o.exactMatchMaxDuration else o.sameKindMaxDuration;
      if !DurationLowerOrEq(s, sibling, maxDuration) then NoStrategy
      else if !c.Empty() && c.strategy != strategy then NoStrategy
      else strategy
  }

  function CanCompressComposite(s: Info, c: CompositeSpan, o: CompressionOptions, sibling: Info): Strategy {
    if c.Empty() then NoStrategy
    else match c.strategy
      case ExactMatch =>
        if IsExactMatch(s, sibling) && DurationLowerOrEq(s, sibling, o.exactMatchMaxDuration)
        then ExactMatch else NoStrategy
      case SameKind =>
        if IsSameKind(s, sibling) && DurationLowerOrEq(s, sibling, o.sameKindMaxDuration)
        then SameKind else NoStrategy
      case NoStrategy => NoStrategy
  }

  /** The strategy `compress` settles on; NoStrategy when it refuses. */
  function Choose(s: Info, c: CompositeSpan, o: CompressionOptions, sibling: Info): Strategy {
    if s.parentID != sibling.parentID then NoStrategy
    else if CanCompressComposite(s, c, o, sibling) != NoStrategy then CanCompressComposite(s, c, o, sibling)
    else CanCompressStandard(s, c, o, sibling)
  }

  /** The composite after `sibling` went into it. */
  function Absorb(s: Info, c: CompositeSpan, strategy: Strategy, sibling: Info): CompositeSpan {
    var c0 := if c.Empty() then CompositeSpan(0, s.duration, 1, strategy) else c;
    CompositeSpan(
      if sibling.End() > c0.lastSiblingEnd then sibling.End() else c0.lastSiblingEnd,
      c0.sum + sibling.duration, c0.count + 1, c0.strategy)
  }

  /** Once a composite exists, falling back to the standard decider never accepts
      what the composite decider refused. */
  lemma FallbackAcceptsNothingMore(s: Info, c: CompositeSpan, o: CompressionOptions, sibling: Info)
    requires !c.Empty() && c.strategy != NoStrategy
    ensures CanCompressComposite(s, c, o, sibling) == NoStrategy ==>
              CanCompressStandard(s, c, o, sibling) == NoStrategy
    ensures Choose(s, c, o, sibling) in {NoStrategy, c.strategy}
  {
  }

  // ----- what a composite stands for -----

  function SumDurations(ms: seq<Info>): int {
    if ms == [] then 0 else ms[0].duration + SumDurations(ms[1..])
  }

  /** The latest end among ms, no earlier than the zero time. */
  function LatestEnd(ms: seq<Info>): Time {
    if ms == [] then 0
    else if ms[0].End() > LatestEnd(ms[1..]) then ms[0].End()
    else LatestEnd(ms[1..])
  }

  /** All members can be told from the head by nothing the strategy looks at. */
  ghost predicate Homogeneous(ms: seq<Info>, strategy: Strategy, o: CompressionOptions)
    requires ms != []
  {
    && strategy != NoStrategy
    && forall m :: m in ms ==>
         && m.parentID == ms[0].parentID
         && IsSameKind(ms[0], m)
         && (strategy == ExactMatch ==> m.name == ms[0].name)
         && m.duration <= o.MaxDuration(strategy)
  }

  /** c is the exact account of the members ms, head first. */
  ghost predicate Exact(c: CompositeSpan, ms: seq<Info>, o: CompressionOptions)
    requires ms != []
  {
    if |ms| == 1 then c == ZERO_COMPOSITE
    else
      && c.count == |ms|
      && c.sum == SumDurations(ms)
      && c.lastSiblingEnd == LatestEnd(ms[1..])
      && Homogeneous(ms, c.strategy, o)
  }

  lemma {:induction false} SumDurationsAppend(ms: seq<Info>, m: Info)
    ensures SumDurations(ms + [m]) == SumDurations(ms) + m.duration
  {
    if ms == [] {
      assert ms + [m] == [m];
    } else {
      assert (ms + [m])[1..] == ms[1..] + [m];
      SumDurationsAppend(ms[1..], m);
    }
  }

  lemma {:induction false} LatestEndAppend(ms: seq<Info>, m: Info)
    ensures LatestEnd(ms + [m]) == if m.End() > LatestEnd(ms) then m.End() else LatestEnd(ms)
  {
    if ms == [] {
      assert ms + [m] == [m];
    } else {
      assert (ms + [m])[1..] == ms[1..] + [m];
      LatestEndAppend(ms[1..], m);
    }
  }

  /** The latest end is the end of a member, and no member ends later. */
  lemma {:induction false} LatestEndIsLatest(ms: seq<Info>)
    ensures forall m :: m in ms ==> m.End() <= LatestEnd(ms)
    ensures LatestEnd(ms) == 0 || exists m :: m in ms && m.End() == LatestEnd(ms)
  {
    if ms != [] {
      LatestEndIsLatest(ms[1..]);
      assert ms == [ms[0]] + ms[1..];
    }
  }

  /** Absorbing a sibling the deciders accept keeps the composite exact and homogeneous,
      and never changes its strategy. */
  lemma AbsorbKeepsExact(c: CompositeSpan, ms: seq<Info>, o: CompressionOptions, m: Info)
    requires ms != [] && Exact(c, ms, o)
    requires Choose(ms[0], c, o, m) != NoStrategy
    ensures Exact(Absorb(ms[0], c, Choose(ms[0], c, o, m), m), ms + [m], o)
    ensures !c.Empty() ==> Absorb(ms[0], c, Choose(ms[0], c, o, m), m).strategy == c.strategy
  {
    SumDurationsAppend(ms, m);
    LatestEndAppend(ms[1..], m);
    assert (ms + [m])[1..] == ms[1..] + [m];
    if |ms| == 1 {
      assert ms == [ms[0]];
      assert SumDurations(ms) == ms[0].duration;
    }
  }

  /** The strategy a further sibling has to fit: the composite's, or for a first
      sibling exact match when the names agree and same kind otherwise. */
  function StrategyToFit(c: CompositeSpan, head: Info, m: Info): Strategy {
    if !c.Empty() then c.strategy
    else if m.name == head.name then ExactMatch
    else SameKind
  }

  /** A sibling is accepted exactly when the enlarged group is homogeneous. */
  lemma AcceptsExactlyHomogeneous(c: CompositeSpan, ms: seq<Info>, o: CompressionOptions, m: Info)
    requires ms != [] && Exact(c, ms, o)
    ensures Choose(ms[0], c, o, m) != NoStrategy <==> Homogeneous(ms + [m], StrategyToFit(c, ms[0], m), o)
  {
    assert ms[0] in ms;
    assert m in ms + [m] && ms[0] in ms + [m];
    if Choose(ms[0], c, o, m) != NoStrategy {
      AbsorbKeepsExact(c, ms, o, m);
    }
  }
}
