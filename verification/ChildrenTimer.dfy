/** The timer behind span self-time (breakdown.go) and the self-times of a span tree.

    The code keeps a counter, a start time and a running total.  What it is for
    is the length of a union of intervals; here that length is the number of
    clock ticks (nanoseconds) during which some child was running. */
module Children {
  import opened Basics

  /** A child that started, and possibly ended. */
  datatype Child = Child(start: Time, end: Option<Time>) {
    predicate Open() {
      end.None?
    }

    /** The ticks the child has been running by time `at`. */
    ghost function Ticks(at: Time): set<Time> {
      Instants(start, if end.Some? && end.value < at then end.value else at)
    }
  }

  /** The ticks from a up to, not including, b. */
  ghost function Instants(a: Time, b: Time): (ticks: set<Time>)
    ensures forall t :: t in ticks <==> a <= t < b
    decreases b - a
  {
    if a < b then {a} + Instants(a + 1, b) else {}
  }

  /** The ticks by time `at` during which at least one child was running. */
  ghost function Busy(children: seq<Child>, at: Time): set<Time> {
    if children == [] then {} else children[0].Ticks(at) + Busy(children[1..], at)
  }

  function OpenCount(children: seq<Child>): nat {
    if children == [] then 0 else (if children[0].Open() then 1 else 0) + OpenCount(children[1..])
  }

  ghost predicate Past(children: seq<Child>, now: Time) {
    forall c :: c in children ==> c.start <= now && (c.end.Some? ==> c.start <= c.end.value <= now)
  }

  lemma {:induction false} InstantsCount(a: Time, b: Time)
    ensures |Instants(a, b)| == if a <= b then b - a else 0
    decreases b - a
  {
    if a < b {
      InstantsCount(a + 1, b);
    }
  }

  /** Letting time pass adds the whole stretch when a child is open, and nothing otherwise. */
  lemma {:induction false} BusyAdvance(children: seq<Child>, now: Time, at: Time)
    requires Past(children, now) && now <= at
    ensures Busy(children, at) == Busy(children, now) + (if OpenCount(children) > 0 then Instants(now, at) else {})
    ensures forall t :: t in Busy(children, now) ==> t < now
  {
    if children != [] {
      BusyAdvance(children[1..], now, at);
      var c := children[0];
      assert c in children;
      assert c.Ticks(at) == c.Ticks(now) + (if c.Open() then Instants(now, at) else {});
    }
  }

  lemma BusyCount(children: seq<Child>, now: Time, at: Time)
    requires Past(children, now) && now <= at
    ensures |Busy(children, at)| == |Busy(children, now)| + if OpenCount(children) > 0 then at - now else 0
  {
    BusyAdvance(children, now, at);
    InstantsCount(now, at);
    if OpenCount(children) > 0 {
      assert Busy(children, now) !! Instants(now, at);
    } else {
      assert Busy(children, at) == Busy(children, now);
    }
  }

  lemma {:induction false} StartChild(children: seq<Child>, at: Time)
    ensures Busy(children + [Child(at, None)], at) == Busy(children, at)
    ensures OpenCount(children + [Child(at, None)]) == OpenCount(children) + 1
  {
    if children == [] {
      assert children + [Child(at, None)] == [Child(at, None)];
    } else {
      assert (children + [Child(at, None)])[1..] == children[1..] + [Child(at, None)];
      StartChild(children[1..], at);
    }
  }

  lemma {:induction false} EndChild(children: seq<Child>, i: nat, at: Time)
    requires i < |children| && children[i].Open()
    ensures var ended := children[i := children[i].(end := Some(at))];
            && Busy(ended, at) == Busy(children, at)
            && OpenCount(ended) == OpenCount(children) - 1
  {
    var ended := children[i := children[i].(end := Some(at))];
    if i == 0 {
      assert ended[1..] == children[1..];
    } else {
      assert ended[1..] == children[1..][i - 1 := children[i].(end := Some(at))];
      EndChild(children[1..], i - 1, at);
    }
  }

  /** Every child still open is taken to end at `at`. */
  ghost function CloseAll(children: seq<Child>, at: Time): (closed: seq<Child>)
    ensures |closed| == |children|
    ensures forall i :: 0 <= i < |children| ==>
              closed[i] == if children[i].Open() then children[i].(end := Some(at)) else children[i]
  {
    if children == [] then []
    else [if children[0].Open() then children[0].(end := Some(at)) else children[0]] + CloseAll(children[1..], at)
  }

  lemma {:induction false} CloseAllBusy(children: seq<Child>, at: Time)
    ensures Busy(CloseAll(children, at), at) == Busy(children, at)
    ensures OpenCount(CloseAll(children, at)) == 0
  {
    if children != [] {
      CloseAllBusy(children[1..], at);
      assert CloseAll(children, at)[1..] == CloseAll(children[1..], at);
    }
  }

  // ----- periods -----

  /** From the report with which the first child became active to that with which the last one
      was no more. */
  datatype Period = Period(open: Time, close: Time)

  function Sum(periods: seq<Period>): int {
    if periods == [] then 0
    else
      var n := |periods| - 1;
      Sum(periods[..n]) + (periods[n].close - periods[n].open)
  }

  ghost function Cover(periods: seq<Period>): set<Time> {
    if periods == [] then {}
    else
      var n := |periods| - 1;
      Cover(periods[..n]) + Instants(periods[n].open, periods[n].close)
  }

  predicate InOrder(periods: seq<Period>) {
    && (forall i :: 0 <= i < |periods| ==> periods[i].open <= periods[i].close)
    && (forall i, j :: 0 <= i < j < |periods| ==> periods[i].close <= periods[j].open)
  }

  lemma OneMorePeriod(periods: seq<Period>, p: Period)
    ensures Sum(periods + [p]) == Sum(periods) + (p.close - p.open)
    ensures Cover(periods + [p]) == Cover(periods) + Instants(p.open, p.close)
  {
    assert (periods + [p])[..|periods|] == periods;
  }

  lemma {:induction false} CoverTick(periods: seq<Period>, t: Time)
    ensures t in Cover(periods) <==> exists i :: 0 <= i < |periods| && periods[i].open <= t < periods[i].close
  {
    if periods != [] {
      var n := |periods| - 1;
      CoverTick(periods[..n], t);
      if t in Cover(periods[..n]) {
        var i :| 0 <= i < n && periods[..n][i].open <= t < periods[..n][i].close;
        assert periods[i].open <= t < periods[i].close;
      }
      if i :| 0 <= i < |periods| && periods[i].open <= t < periods[i].close && i < n {
        assert periods[..n][i].open <= t < periods[..n][i].close;
      }
    }
  }

  lemma {:induction false} CoverCount(periods: seq<Period>)
    requires InOrder(periods)
    ensures |Cover(periods)| == Sum(periods)
  {
    if periods != [] {
      var n := |periods| - 1;
      var p := periods[n];
      CoverCount(periods[..n]);
      InstantsCount(p.open, p.close);
      forall t | t in Cover(periods[..n])
        ensures t < p.open
      {
        CoverTick(periods[..n], t);
      }
      assert Cover(periods[..n]) !! Instants(p.open, p.close);
    }
  }

  lemma SubsetCount(a: set<Time>, b: set<Time>)
    requires a <= b
    ensures |a| <= |b|
  {
    assert b == a + (b - a);
  }

  /** If the periods are in order and cover all these instants, d is at least their number, and
      equal to it exactly if there is no gap: some child was running throughout. */
  ghost predicate Measures(periods: seq<Period>, busy: set<Time>, d: int) {
    InOrder(periods) && busy <= Cover(periods) ==> |busy| <= d && (d == |busy| <==> busy == Cover(periods))
  }

  ghost predicate Gapless(periods: seq<Period>, busy: set<Time>) {
    InOrder(periods) && busy == Cover(periods)
  }

  lemma SumMeasures(periods: seq<Period>, busy: set<Time>)
    ensures Measures(periods, busy, Sum(periods))
    ensures Gapless(periods, busy) ==> Sum(periods) == |busy|
  {
    if InOrder(periods) && busy <= Cover(periods) {
      CoverCount(periods);
      SubsetCount(busy, Cover(periods));
      assert Cover(periods) == busy + (Cover(periods) - busy);
    }
  }

  /** A child belongs to a period whose opening report is no later than its start, and whose
      closing report is no earlier than its end. */
  ghost predicate BelongsTo(c: Child, p: Period, at: Time) {
    p.open <= c.start && (at <= p.close || (c.end.Some? && c.end.value <= p.close))
  }

  /** If each child belongs to a period, the periods cover all of them. */
  lemma {:induction false} PeriodsCover(children: seq<Child>, periods: seq<Period>, at: Time)
    requires forall c :: c in children ==> exists p :: p in periods && BelongsTo(c, p, at)
    ensures Busy(children, at) <= Cover(periods)
  {
    if children != [] {
      var c := children[0];
      assert c in children;
      var p :| p in periods && BelongsTo(c, p, at);
      forall t | t in c.Ticks(at)
        ensures t in Cover(periods)
      {
        CoverTick(periods, t);
      }
      assert forall d :: d in children[1..] ==> d in children;
      PeriodsCover(children[1..], periods, at);
    }
  }

  // ----- reports in time order -----

  /** The closed periods, and one still open as of time `at`. */
  function PeriodsAt(periods: seq<Period>, active: int, start: Time, at: Time): seq<Period> {
    if active > 0 then periods + [Period(start, at)] else periods
  }

  /** What a timer is of reports that came in time order until now. */
  ghost predicate Tracked(children: seq<Child>, periods: seq<Period>, active: int, start: Time, now: Time) {
    && Past(children, now)
    && active == OpenCount(children)
    && (active > 0 ==> start <= now)
    && InOrder(periods) && (forall p :: p in periods ==> p.close <= if active > 0 then start else now)
    && Busy(children, now) == Cover(PeriodsAt(periods, active, start, now))
  }

  lemma TrackedLater(children: seq<Child>, periods: seq<Period>, active: int, start: Time, now: Time, at: Time)
    requires Tracked(children, periods, active, start, now) && now <= at
    ensures Tracked(children, periods, active, start, at)
  {
    BusyAdvance(children, now, at);
    if active > 0 {
      OneMorePeriod(periods, Period(start, now));
      OneMorePeriod(periods, Period(start, at));
      assert Instants(start, at) == Instants(start, now) + Instants(now, at);
    } else {
      assert Busy(children, at) == Busy(children, now);
    }
  }

  lemma TrackedStart(children: seq<Child>, periods: seq<Period>, active: int, start: Time, at: Time)
    requires Tracked(children, periods, active, start, at)
    ensures Tracked(children + [Child(at, None)], periods, active + 1, if active == 0 then at else start, at)
  {
    StartChild(children, at);
    if active == 0 {
      OneMorePeriod(periods, Period(at, at));
      assert PeriodsAt(periods, 0, start, at) == periods;
    }
  }

  /** The child ends, if it is one that is open. */
  function Ended(children: seq<Child>, child: nat, at: Time): seq<Child> {
    if child < |children| && children[child].Open() then children[child := children[child].(end := Some(at))] else children
  }

  /** With the last child its period ends. */
  function PeriodsEnded(periods: seq<Period>, active: int, start: Time, at: Time): seq<Period> {
    if active == 0 then periods + [Period(start, at)] else periods
  }

  lemma PeriodsEndedSum(periods: seq<Period>, active: int, start: Time, at: Time)
    ensures Sum(PeriodsEnded(periods, active, start, at)) == Sum(periods) + if active == 0 then at - start else 0
    ensures Sum(PeriodsAt(periods, active, start, at)) == Sum(periods) + if active > 0 then at - start else 0
  {
    OneMorePeriod(periods, Period(start, at));
  }

  lemma TrackedEnd(children: seq<Child>, periods: seq<Period>, active: int, start: Time, at: Time, child: nat)
    requires Tracked(children, periods, active, start, at) && child < |children| && children[child].Open()
    ensures Tracked(Ended(children, child, at), PeriodsEnded(periods, active - 1, start, at), active - 1, start, at)
  {
    hide Cover, Busy, OpenCount;
    EndChild(children, child, at);
    assert children[child] in children;
    if active == 1 {
      var closed := periods + [Period(start, at)];
      assert forall i :: 0 <= i < |periods| ==> closed[i] == periods[i] && periods[i] in periods;
      assert PeriodsAt(closed, 0, start, at) == closed;
    }
  }

  /** What is open is closed at the end. */
  lemma TrackedFinal(children: seq<Child>, periods: seq<Period>, active: int, start: Time, end: Time)
    requires Tracked(children, periods, active, start, end)
    ensures var all := PeriodsAt(periods, active, start, end);
            && Gapless(all, Busy(children, end))
            && Tracked(CloseAll(children, end), all, if active > 0 then 0 else active, start, end)
  {
    CloseAllBusy(children, end);
    var all := PeriodsAt(periods, active, start, end);
    assert forall i :: 0 <= i < |periods| ==> all[i] == periods[i] && periods[i] in periods;
    assert PeriodsAt(all, 0, start, end) == all;
    assert forall c :: c in children ==> c.start <= end;
  }

  /** What a timer always is. */
  ghost predicate Kept(total: int, children: seq<Child>, periods: seq<Period>, active: int, start: Time, now: Time,
                       orderly: bool) {
    total == Sum(periods) && (orderly ==> Tracked(children, periods, active, start, now))
  }

  lemma KeptByStart(total: int, children: seq<Child>, periods: seq<Period>, active: int, start: Time, now: Time,
                    orderly: bool, at: Time)
    requires Kept(total, children, periods, active, start, now, orderly)
    ensures Kept(total, children + [Child(at, None)], periods, active + 1, if active == 0 then at else start, at,
                 orderly && now <= at)
  {
    if orderly && now <= at {
      TrackedLater(children, periods, active, start, now, at);
      TrackedStart(children, periods, active, start, at);
    }
  }

  lemma KeptByEnd(total: int, children: seq<Child>, periods: seq<Period>, active: int, start: Time, now: Time,
                  orderly: bool, at: Time, child: nat)
    requires Kept(total, children, periods, active, start, now, orderly)
    ensures Kept(if active == 1 then total + (at - start) else total, Ended(children, child, at),
                 PeriodsEnded(periods, active - 1, start, at), active - 1, start, at,
                 orderly && now <= at && child < |children| && children[child].Open())
  {
    PeriodsEndedSum(periods, active - 1, start, at);
    if orderly && now <= at && child < |children| && children[child].Open() {
      TrackedLater(children, periods, active, start, now, at);
      TrackedEnd(children, periods, active, start, at, child);
    }
  }

  lemma KeptByFinal(total: int, children: seq<Child>, periods: seq<Period>, active: int, start: Time, now: Time,
                    orderly: bool, end: Time)
    requires Kept(total, children, periods, active, start, now, orderly)
    ensures var all, busy := PeriodsAt(periods, active, start, end), Busy(children, end);
            var total' := if active > 0 then total + (end - start) else total;
            && Kept(total', CloseAll(children, end), all, if active > 0 then 0 else active, start, end, orderly && now <= end)
            && total' == Sum(all) && Measures(all, busy, total')
            && (orderly && now <= end ==> Gapless(all, busy) && total' == |busy|)
  {
    PeriodsEndedSum(periods, active, start, end);
    SumMeasures(PeriodsAt(periods, active, start, end), Busy(children, end));
    if orderly && now <= end {
      TrackedLater(children, periods, active, start, now, end);
      TrackedFinal(children, periods, active, start, end);
    }
  }
}

/** The timer itself, and a whole tree of spans. */
module ChildrenTimer {
  import opened Basics
  import opened Children

  class Timer {
    var active: int
    var start: Time
    var totalDuration: int

    /** The children reported so far, the time of the latest report, and the periods that
        were closed.  `orderly` says that the reports came in time order, each end for a
        running child. */
    ghost var children: seq<Child>
    ghost var now: Time
    ghost var periods: seq<Period>
    ghost var orderly: bool

    ghost predicate Valid()
      reads this
    {
      Kept(totalDuration, children, periods, active, start, now, orderly)
    }

    constructor (ghost origin: Time)
      ensures Valid() && orderly && children == [] && now == origin && periods == []
      ensures active == 0 && totalDuration == 0
    {
      active, start, totalDuration := 0, 0, 0;
      children, now, periods, orderly := [], origin, [], true;
    }

    method ChildStarted(at: Time)
      requires Valid()
      modifies this
      ensures Valid()
      ensures orderly <==> old(orderly) && old(now) <= at
      ensures now == at && children == old(children) + [Child(at, None)] && periods == old(periods)
      ensures active == old(active) + 1 && totalDuration == old(totalDuration)
      ensures start == if active == 1 then at else old(start)
    {
      KeptByStart(totalDuration, children, periods, active, start, now, orderly, at);
      active := active + 1;
      if active == 1 {
        start := at;
      }
      children, orderly, now := children + [Child(at, None)], orderly && now <= at, at;
    }

    method ChildEnded(at: Time, ghost child: nat)
      requires Valid()
      modifies this
      ensures Valid()
      ensures orderly <==>
              old(orderly) && old(now) <= at && child < |old(children)| && old(children)[child].Open()
      ensures now == at
      ensures children == Ended(old(children), child, at)
      ensures active == old(active) - 1 && start == old(start)
      ensures periods == PeriodsEnded(old(periods), active, start, at)
    {
      KeptByEnd(totalDuration, children, periods, active, start, now, orderly, at, child);
      orderly := orderly && now <= at && child < |children| && children[child].Open();
      active := active - 1;
      if active == 0 {
        totalDuration := totalDuration + (at - start);
      }
      children, now, periods := Ended(children, child, at), at, PeriodsEnded(periods, active, start, at);
    }

    /** The result is the sum of all periods, one still open being closed at `end`.  Periods in
        order that cover all children give at least the length of the union of the children's
        intervals, those of running ones clipped at `end`, and exactly that if and only if
        there is no gap; reports in time order always do. */
    method FinalDuration(end: Time) returns (d: int)
      requires Valid()
      modifies this
      ensures Valid()
      ensures periods == old(PeriodsAt(periods, active, start, end)) && d == totalDuration == Sum(periods)
      ensures Measures(periods, Busy(old(children), end), d)
      ensures old(orderly) && old(now) <= end ==>
                Gapless(periods, Busy(old(children), end)) && d == |Busy(old(children), end)|
      ensures orderly <==> old(orderly) && old(now) <= end
      ensures now == end && children == CloseAll(old(children), end)
    {
      hide Kept, Measures, Gapless, Sum, PeriodsAt, CloseAll, Busy;
      KeptByFinal(totalDuration, children, periods, active, start, now, orderly, end);
      periods := PeriodsAt(periods, active, start, end);
      if active > 0 {
        active := 0;
        totalDuration := totalDuration + (end - start);
      }
      children, orderly, now := CloseAll(children, end), orderly && now <= end, end;
      return totalDuration;
    }
  }

  /** Self-time lies between zero and the duration. */
  lemma {:induction false} BusyBounds(children: seq<Child>, from: Time, to: Time)
    requires forall c :: c in children ==> from <= c.start
    requires from <= to
    ensures 0 <= |Busy(children, to)| <= to - from
  {
    BusyWithin(children, from, to);
    InstantsCount(from, to);
    SubsetCount(Busy(children, to), Instants(from, to));
  }

  lemma {:induction false} BusyWithin(children: seq<Child>, from: Time, to: Time)
    requires forall c :: c in children ==> from <= c.start
    ensures Busy(children, to) <= Instants(from, to)
  {
    if children != [] {
      assert children[0] in children;
      BusyWithin(children[1..], from, to);
    }
  }

  lemma TwoFromZero(d: nat)
    ensures |Busy([Child(0, Some(d)), Child(0, Some(1))], d)| == d
  {
    var children := [Child(0, Some(d)), Child(0, Some(1))];
    BusyBounds(children, 0, d);
    InstantsCount(0, d);
    assert children[0].Ticks(d) == Instants(0, d);
    SubsetCount(Instants(0, d), Busy(children, d));
  }

  /** Periods need not cover the children if reports are out of order: of two siblings running
      from 0, one until d and one until 1, reported in that order, the timer sees one tick. */
  method OutOfOrderReports(d: nat) returns (seen: int)
    requires d > 1
    ensures seen == 1 && |Busy([Child(0, Some(d)), Child(0, Some(1))], d)| == d
  {
    var t := new Timer(0);
    t.ChildStarted(0);
    t.ChildStarted(0);
    t.ChildEnded(d, 0);
    t.ChildEnded(1, 1);
    seen := t.FinalDuration(d);
    TwoFromZero(d);
  }

  /** Span.End: the early return for a child of an exit span with another type comes before the
      report that it has ended. */
  method ReportEnd(t: Timer, mismatched: bool, at: Time, ghost child: nat)
    requires t.Valid()
    modifies t
    ensures t.Valid() && (mismatched ==> t.children == old(t.children) && t.now == old(t.now) && t.orderly == old(t.orderly))
    ensures !mismatched ==> t.children == Ended(old(t.children), child, at)
  {
    if !mismatched {
      t.ChildEnded(at, child);
    }
  }

  /** A child whose end is never reported counts as running to the end, whatever else does. */
  lemma {:induction false} NeverEnded(children: seq<Child>, c: Child, at: Time)
    requires c in children && c.Open()
    ensures Instants(c.start, at) <= Busy(children, at) && at - c.start <= |Busy(children, at)|
  {
    if children[0] != c {
      NeverEnded(children[1..], c, at);
    }
    InstantsCount(c.start, at);
    SubsetCount(Instants(c.start, at), Busy(children, at));
  }

  /** So a parent whose child is returned early loses all of its self-time from that child's
      start to its own end, however short the child. */
  method MismatchedChild(t: Timer, start: Time, at: Time, end: Time) returns (d: int)
    requires t.Valid() && t.orderly && t.now <= start <= at <= end
    modifies t
    ensures d == |Busy(old(t.children), start)| + (end - start)
  {
    ghost var children := t.children + [Child(start, None)];
    StartChild(t.children, start);
    t.ChildStarted(start);
    ReportEnd(t, true, at, |children| - 1);
    assert Past(children, start);
    BusyCount(children, start, end);
    d := t.FinalDuration(end);
  }

  // ----- a whole tree of spans -----

  /** A finished span (or the transaction, at the root) with its direct children. */
  datatype Node = Node(start: Time, end: Time, kids: seq<Node>)

  predicate WellNested(n: Node) {
    && n.start <= n.end
    && forall k :: k in n.kids ==> n.start <= k.start && k.end <= n.end && WellNested(k)
  }

  function AsChildren(kids: seq<Node>): seq<Child> {
    if kids == [] then [] else [Child(kids[0].start, Some(kids[0].end))] + AsChildren(kids[1..])
  }

  /** What the span reports as its own time (span.go:530, breakdown.go:179). */
  ghost function SelfTime(n: Node): int {
    n.end - n.start - |Busy(AsChildren(n.kids), n.end)|
  }

  ghost function TotalSelfTime(n: Node): int
    decreases n, 1
  {
    SelfTime(n) + TotalSelfTimes(n.kids)
  }

  ghost function TotalSelfTimes(ns: seq<Node>): int
    decreases ns, 0
  {
    if ns == [] then 0 else TotalSelfTime(ns[0]) + TotalSelfTimes(ns[1..])
  }

  predicate Disjoint(a: Node, b: Node) {
    a.start >= a.end || b.start >= b.end || a.end <= b.start || b.end <= a.start
  }

  /** No two siblings, anywhere in the tree, run at the same time. */
  ghost predicate SiblingsApart(n: Node)
    decreases n, 1
  {
    AllApart(n.kids)
  }

  ghost predicate AllApart(ns: seq<Node>)
    decreases ns, 0
  {
    ns == [] || (SiblingsApart(ns[0]) && (forall m :: m in ns[1..] ==> Disjoint(ns[0], m)) && AllApart(ns[1..]))
  }

  /** A tick is busy exactly when some child runs then. */
  lemma {:induction false} BusyTick(ns: seq<Node>, at: Time, t: Time)
    requires forall n :: n in ns ==> n.start <= n.end <= at
    ensures t in Busy(AsChildren(ns), at) <==> exists n :: n in ns && n.start <= t < n.end
  {
    if ns != [] {
      BusyTick(ns[1..], at, t);
      assert AsChildren(ns)[1..] == AsChildren(ns[1..]);
      assert ns[0] in ns;
    }
  }

  /** A span shares an instant with its later siblings unless it overlaps none of them. */
  lemma SharedTick(ns: seq<Node>, at: Time)
    requires ns != [] && forall n :: n in ns ==> n.start <= n.end <= at
    ensures Instants(ns[0].start, ns[0].end) * Busy(AsChildren(ns[1..]), at) == {} <==>
            forall m :: m in ns[1..] ==> Disjoint(ns[0], m)
  {
    var a, b := Instants(ns[0].start, ns[0].end), Busy(AsChildren(ns[1..]), at);
    if m :| m in ns[1..] && !Disjoint(ns[0], m) {
      var t := if ns[0].start < m.start then m.start else ns[0].start;
      BusyTick(ns[1..], at, t);
      assert t in a * b;
    } else if a * b != {} {
      var t :| t in a * b;
      BusyTick(ns[1..], at, t);
    }
  }

  /** A sibling that overlaps none of the others adds its whole duration to the
      union; one that overlaps some adds less. */
  lemma BusyOneMore(ns: seq<Node>, at: Time)
    requires ns != [] && forall n :: n in ns ==> n.start <= n.end <= at
    ensures var more := |Busy(AsChildren(ns), at)| - |Busy(AsChildren(ns[1..]), at)|;
            && more <= ns[0].end - ns[0].start
            && (more == ns[0].end - ns[0].start <==> forall m :: m in ns[1..] ==> Disjoint(ns[0], m))
  {
    hide Instants;
    var a, b := Instants(ns[0].start, ns[0].end), Busy(AsChildren(ns[1..]), at);
    InstantsCount(ns[0].start, ns[0].end);
    assert AsChildren(ns)[1..] == AsChildren(ns[1..]);
    assert Busy(AsChildren(ns), at) == a + b;
    assert |a + b| == |a| + |b| - |a * b|;
    SharedTick(ns, at);
  }

  /** The self-times of a properly nested tree add up to at least the root's duration,
      and to exactly that when, and only when, no two siblings overlap. */
  lemma {:induction false} SelfTimesAddUp(n: Node)
    requires WellNested(n)
    ensures TotalSelfTime(n) >= n.end - n.start
    ensures TotalSelfTime(n) == n.end - n.start <==> SiblingsApart(n)
    decreases n, 1
  {
    SelfTimesOfSiblings(n.kids, n.end);
  }

  lemma {:induction false} SelfTimesOfSiblings(ns: seq<Node>, at: Time)
    requires forall n :: n in ns ==> WellNested(n) && n.end <= at
    ensures TotalSelfTimes(ns) >= |Busy(AsChildren(ns), at)|
    ensures TotalSelfTimes(ns) == |Busy(AsChildren(ns), at)| <==> AllApart(ns)
    decreases ns, 0
  {
    if ns != [] {
      assert ns[0] in ns;
      SelfTimesAddUp(ns[0]);
      SelfTimesOfSiblings(ns[1..], at);
      BusyOneMore(ns, at);
    }
  }
}
