/** What recordTransaction promises of the breakdown metrics (breakdown.go), over every schedule.

    The machine of this module is that of module Breakdown without its hash index: a map is the
    set of its keys, and a thread is the call that it is in.  Breakdown proves that the index
    follows this machine step by step. */
module BreakdownCalls {

  const BREAKDOWN_METRICS_LIMIT: nat := 1000

  datatype Key = Key(transactionType: string, transactionName: string, spanType: string, spanSubtype: string)

  datatype Timing = Timing(count: nat, duration: int) {
    function Plus(t: Timing): Timing {
      Timing(count + t.count, duration + t.duration)
    }

    function Get(p: Part): int {
      if p.Count? then count else duration
    }

    /** A count of zero comes with a duration of zero; recordTransaction keeps to that. */
    predicate Proper() {
      count == 0 ==> duration == 0
    }
  }

  /** Counts and durations are conserved alike. */
  datatype Part = Count | Duration

  datatype Entry = Entry(key: Key, timing: Timing)

  predicate AllProper(entries: seq<Entry>) {
    forall i :: 0 <= i < |entries| ==> entries[i].timing.Proper()
  }

  /** A step of a schedule: any thread may go next, or the gatherer. */
  datatype Step =
    | Begin(t: nat, todo: seq<Entry>)
    | Advance(t: nat)
    | StartGather
    | GatherBucket(h: nat)
    | EndGather

  // ----- the machine -----

  /** Where a call is: it has returned, or goes to the next record, or searches for its key, which
      was or was not in the map when it looked; or it has found nothing and waits for the lock; or
      has still to add the count, or the duration, of the record just accepted. */
  datatype Phase = Returned(ok: bool) | Recording | Searching(seen: bool) | Searched | CountDue | DurationDue

  /** A call of recordTransaction, and how many of its records were accepted. */
  datatype Call = Call(args: seq<Entry>, made: nat, at: Phase) {
    predicate Inside() {
      !at.Returned?
    }

    predicate WellFormed() {
      && made <= |args| && AllProper(args)
      && (at.Searching? || at.Searched? ==> made < |args|)
      && (at.CountDue? || at.DurationDue? ==> made > 0)
    }

    /** How often e is among the records accepted so far. */
    function Made(e: Entry): nat {
      if made <= |args| then multiset(args[..made])[e] else 0
    }
  }

  /** A call that has returned, and what keys were in the map then. */
  datatype Outcome = Outcome(call: Call, ok: bool, keys: set<Key>)

  datatype State = State(
    calls: seq<Call>,        // the last one of each thread
    keys: set<Key>,          // of the active map
    draining: set<Key>,      // of the inactive map
    gathering: bool, panicked: bool,
    accepted: seq<Entry>,    // history: the records accepted, in order
    outcomes: seq<Outcome>)  // history: the calls that returned

  predicate WellFormed(s: State) {
    forall t :: 0 <= t < |s.calls| ==> s.calls[t].WellFormed()
  }

  function Start(n: nat): State {
    State(seq(n, _ => Call([], 0, Returned(true))), {}, {}, false, false, [], [])
  }

  function Put(s: State, t: nat, c: Call): State
    requires t < |s.calls|
  {
    s.(calls := s.calls[t := c])
  }

  function Return(s: State, t: nat, ok: bool): State
    requires t < |s.calls|
  {
    var c := s.calls[t].(at := Returned(ok));
    Put(s, t, c).(outcomes := s.outcomes + [Outcome(c, ok, s.keys)])
  }

  /** The record at hand is accepted. */
  function Commit(s: State, t: nat, at: Phase): State
    requires t < |s.calls| && s.calls[t].made < |s.calls[t].args|
  {
    var c := s.calls[t];
    Put(s, t, c.(made := c.made + 1, at := at)).(accepted := s.accepted + [c.args[c.made]])
  }

  predicate HasBucket(hash: Key -> nat, keys: set<Key>, h: nat) {
    exists k :: k in keys && hash(k) == h
  }

  /** Under the lock: a key that is there by now is added to; a new one is put in the map if
      there is room, and refused if there is none, unless it has a bucket. */
  function Settle(hash: Key -> nat, s: State, t: nat): State
    requires t < |s.calls| && s.calls[t].made < |s.calls[t].args|
  {
    var k := s.calls[t].args[s.calls[t].made].key;
    if k in s.keys then Commit(s, t, CountDue)
    else if |s.keys| < BREAKDOWN_METRICS_LIMIT then Commit(s, t, Recording).(keys := s.keys + {k})
    else if HasBucket(hash, s.keys, hash(k)) then s.(panicked := true)
    else Return(s, t, false)
  }

  function Go(hash: Key -> nat, s: State, t: nat): State
    requires t < |s.calls| && s.calls[t].WellFormed()
  {
    var c := s.calls[t];
    match c.at
    case Returned(_) => s
    case Recording =>
      if c.made == |c.args| then Return(s, t, true)
      else Put(s, t, c.(at := Searching(c.args[c.made].key in s.keys)))
    case Searching(seen) => if seen then Commit(s, t, CountDue) else Put(s, t, c.(at := Searched))
    case Searched => Settle(hash, s, t)
    case CountDue => Put(s, t, c.(at := DurationDue))
    case DurationDue => Put(s, t, c.(at := Recording))
  }

  predicate NoneInside(s: State) {
    forall t :: 0 <= t < |s.calls| ==> !s.calls[t].Inside()
  }

  /** One step, if it can be taken. */
  function Next(hash: Key -> nat, s: State, step: Step): State
    requires WellFormed(s)
  {
    if s.panicked then s
    else match step
      case Begin(t, todo) =>
        if t < |s.calls| && !s.calls[t].Inside() && AllProper(todo) then Put(s, t, Call(todo, 0, Recording)) else s
      case Advance(t) => if t < |s.calls| then Go(hash, s, t) else s
      case StartGather =>
        if !s.gathering && NoneInside(s) then s.(keys := {}, draining := s.keys, gathering := true) else s
      case GatherBucket(h) =>
        if s.gathering then s.(draining := set k | k in s.draining && hash(k) != h) else s
      case EndGather => if s.gathering && s.draining == {} then s.(gathering := false) else s
  }

  lemma NextWellFormed(hash: Key -> nat, s: State, step: Step)
    requires WellFormed(s)
    ensures WellFormed(Next(hash, s, step)) && |Next(hash, s, step).calls| == |s.calls|
  {
    hide HasBucket;
    if step.Advance? && step.t < |s.calls| {
      assert s.calls[step.t].WellFormed();
    }
  }

  /** After the first n steps of a schedule. */
  function After(hash: Key -> nat, s: State, schedule: seq<Step>, n: nat): (s': State)
    requires WellFormed(s) && n <= |schedule|
    ensures WellFormed(s')
  {
    if n == 0 then s
    else
      var s0 := After(hash, s, schedule, n - 1);
      NextWellFormed(hash, s0, schedule[n - 1]);
      Next(hash, s0, schedule[n - 1])
  }

  // ----- what the calls come to -----

  /** How often e was accepted for the first n calls that returned. */
  function MadeBy(outcomes: seq<Outcome>, n: nat, e: Entry): nat
    requires n <= |outcomes|
  {
    if n == 0 then 0 else MadeBy(outcomes, n - 1, e) + outcomes[n - 1].call.Made(e)
  }

  /** And for those calls of the first n threads that are under way. */
  function MadeInside(calls: seq<Call>, n: nat, e: Entry): nat
    requires n <= |calls|
  {
    if n == 0 then 0 else MadeInside(calls, n - 1, e) + Counted(calls[n - 1], e)
  }

  function Counted(c: Call, e: Entry): nat {
    if c.Inside() then c.Made(e) else 0
  }

  /** A call returns true exactly if all of its records were accepted; and else the map was full,
      and the first record that was not accepted had a new key. */
  predicate Honest(o: Outcome) {
    && o.call.at == Returned(o.ok) && o.call.made <= |o.call.args|
    && (o.ok <==> o.call.made == |o.call.args|)
    && (!o.ok ==> |o.keys| == BREAKDOWN_METRICS_LIMIT && o.call.args[o.call.made].key !in o.keys)
  }

  /** What was accepted is what the calls made. */
  ghost predicate Accounted(s: State, e: Entry) {
    multiset(s.accepted)[e] == MadeBy(s.outcomes, |s.outcomes|, e) + MadeInside(s.calls, |s.calls|, e)
  }

  ghost predicate Promise(s: State) {
    && WellFormed(s)
    && (forall i :: 0 <= i < |s.outcomes| ==> Honest(s.outcomes[i]))
    && (forall e :: Accounted(s, e))
    && |s.keys| <= BREAKDOWN_METRICS_LIMIT
  }

  lemma {:induction false} OutcomesPrefix(a: seq<Outcome>, b: seq<Outcome>, n: nat, e: Entry)
    requires n <= |a|
    ensures MadeBy(a + b, n, e) == MadeBy(a, n, e)
  {
    if n > 0 {
      OutcomesPrefix(a, b, n - 1, e);
    }
  }

  lemma {:induction false} InsidePut(calls: seq<Call>, t: nat, c: Call, n: nat, e: Entry)
    requires n <= |calls| && t < |calls|
    ensures MadeInside(calls[t := c], n, e) ==
            MadeInside(calls, n, e) + if t < n then Counted(c, e) - Counted(calls[t], e) else 0
  {
    if n > 0 {
      InsidePut(calls, t, c, n - 1, e);
    }
  }

  /** One more record accepted. */
  lemma MadeOneMore(c: Call, at: Phase, e: Entry)
    requires c.made < |c.args|
    ensures c.(made := c.made + 1, at := at).Made(e) == c.Made(e) + if c.args[c.made] == e then 1 else 0
  {
    assert c.args[..c.made + 1] == c.args[..c.made] + [c.args[c.made]];
  }

  lemma ReturnAccounted(s: State, t: nat, ok: bool, e: Entry)
    requires Accounted(s, e) && t < |s.calls| && s.calls[t].Inside()
    ensures Accounted(Return(s, t, ok), e)
  {
    var c := s.calls[t].(at := Returned(ok));
    InsidePut(s.calls, t, c, |s.calls|, e);
    OutcomesPrefix(s.outcomes, [Outcome(c, ok, s.keys)], |s.outcomes|, e);
  }

  lemma CommitAccounted(s: State, t: nat, at: Phase, e: Entry)
    requires Accounted(s, e) && t < |s.calls| && s.calls[t].Inside() && s.calls[t].made < |s.calls[t].args|
    requires !at.Returned?
    ensures Accounted(Commit(s, t, at), e)
  {
    var c := s.calls[t];
    MadeOneMore(c, at, e);
    InsidePut(s.calls, t, c.(made := c.made + 1, at := at), |s.calls|, e);
  }

  lemma PutAccounted(s: State, t: nat, c: Call, e: Entry)
    requires Accounted(s, e) && t < |s.calls| && Counted(c, e) == Counted(s.calls[t], e)
    ensures Accounted(Put(s, t, c), e)
  {
    InsidePut(s.calls, t, c, |s.calls|, e);
  }

  lemma ReturnKeepsPromise(s: State, t: nat, ok: bool)
    requires Promise(s) && t < |s.calls| && s.calls[t].Inside()
    requires ok <==> s.calls[t].made == |s.calls[t].args|
    requires !ok ==> |s.keys| == BREAKDOWN_METRICS_LIMIT && s.calls[t].made < |s.calls[t].args|
                     && s.calls[t].args[s.calls[t].made].key !in s.keys
    ensures Promise(Return(s, t, ok))
  {
    hide Accounted;
    assert s.calls[t].WellFormed();
    forall e
      ensures Accounted(Return(s, t, ok), e)
    {
      ReturnAccounted(s, t, ok, e);
    }
  }

  lemma CommitKeepsPromise(s: State, t: nat, at: Phase)
    requires Promise(s) && t < |s.calls| && s.calls[t].Inside() && s.calls[t].made < |s.calls[t].args|
    requires at.CountDue? || at.Recording?
    ensures Promise(Commit(s, t, at))
  {
    hide Accounted;
    assert s.calls[t].WellFormed();
    forall e
      ensures Accounted(Commit(s, t, at), e)
    {
      CommitAccounted(s, t, at, e);
    }
  }

  lemma PutKeepsPromise(s: State, t: nat, c: Call)
    requires Promise(s) && t < |s.calls| && c.WellFormed()
    requires forall e :: Counted(c, e) == Counted(s.calls[t], e)
    ensures Promise(Put(s, t, c))
  {
    hide Accounted;
    forall e
      ensures Accounted(Put(s, t, c), e)
    {
      PutAccounted(s, t, c, e);
    }
  }

  lemma GoKeepsPromise(hash: Key -> nat, s: State, t: nat)
    requires Promise(s) && t < |s.calls|
    ensures s.calls[t].WellFormed() && Promise(Go(hash, s, t))
  {
    hide Accounted, HasBucket;
    var c := s.calls[t];
    assert c.WellFormed();
    match c.at {
      case Returned(_) =>
      case Recording =>
        if c.made == |c.args| {
          ReturnKeepsPromise(s, t, true);
        } else {
          PutKeepsPromise(s, t, c.(at := Searching(c.args[c.made].key in s.keys)));
        }
      case Searching(seen) =>
        if seen {
          CommitKeepsPromise(s, t, CountDue);
        } else {
          PutKeepsPromise(s, t, c.(at := Searched));
        }
      case Searched => SettleKeepsPromise(hash, s, t);
      case CountDue => PutKeepsPromise(s, t, c.(at := DurationDue));
      case DurationDue => PutKeepsPromise(s, t, c.(at := Recording));
    }
  }

  lemma SettleKeepsPromise(hash: Key -> nat, s: State, t: nat)
    requires Promise(s) && t < |s.calls| && s.calls[t].at.Searched? && s.calls[t].made < |s.calls[t].args|
    ensures Promise(Settle(hash, s, t))
  {
    hide Accounted, HasBucket;
    var k := s.calls[t].args[s.calls[t].made].key;
    if k in s.keys {
      CommitKeepsPromise(s, t, CountDue);
    } else if |s.keys| < BREAKDOWN_METRICS_LIMIT {
      CommitKeepsPromise(s, t, Recording);
      assert |s.keys + {k}| == |s.keys| + 1;
      SameCalls(Commit(s, t, Recording), Settle(hash, s, t));
    } else if !HasBucket(hash, s.keys, hash(k)) {
      ReturnKeepsPromise(s, t, false);
    } else {
      SameCalls(s, s.(panicked := true));
    }
  }

  lemma NextKeepsPromise(hash: Key -> nat, s: State, step: Step)
    requires Promise(s)
    ensures Promise(Next(hash, s, step))
  {
    hide Accounted, HasBucket;
    match step {
      case Begin(t, todo) =>
        if t < |s.calls| && !s.calls[t].Inside() && AllProper(todo) {
          assert s.calls[t].WellFormed() && todo[..0] == [];
          PutKeepsPromise(s, t, Call(todo, 0, Recording));
        }
      case Advance(t) =>
        if t < |s.calls| {
          GoKeepsPromise(hash, s, t);
        }
      case _ => SameCalls(s, Next(hash, s, step));
    }
  }

  /** A step that leaves calls and history alone. */
  lemma SameCalls(s: State, s': State)
    requires Promise(s) && s'.calls == s.calls && s'.accepted == s.accepted && s'.outcomes == s.outcomes
    requires |s'.keys| <= BREAKDOWN_METRICS_LIMIT
    ensures Promise(s')
  {
    forall e
      ensures Accounted(s', e)
    {
      assert Accounted(s, e);
    }
  }

  lemma {:induction false} NothingInside(calls: seq<Call>, n: nat, e: Entry)
    requires n <= |calls| && forall t :: 0 <= t < |calls| ==> !calls[t].Inside()
    ensures MadeInside(calls, n, e) == 0
  {
    if n > 0 {
      NothingInside(calls, n - 1, e);
    }
  }

  /** Over every schedule, each call that has returned returned true exactly if all of its records
      were accepted, and else only a proper prefix was, for want of room; and what was accepted
      is what the calls made, those that returned and those under way, and nothing else. */
  lemma {:induction false} PromiseKept(hash: Key -> nat, threads: nat, schedule: seq<Step>, n: nat)
    requires n <= |schedule|
    ensures WellFormed(Start(threads)) && Promise(After(hash, Start(threads), schedule, n))
  {
    if n == 0 {
      forall e
        ensures Accounted(Start(threads), e)
      {
        NothingInside(Start(threads).calls, threads, e);
      }
    } else {
      PromiseKept(hash, threads, schedule, n - 1);
      NextKeepsPromise(hash, After(hash, Start(threads), schedule, n - 1), schedule[n - 1]);
    }
  }

  /** So at rest what was accepted is what the calls that returned made. */
  lemma AllMadeAtRest(s: State, e: Entry)
    requires Promise(s) && NoneInside(s)
    ensures multiset(s.accepted)[e] == MadeBy(s.outcomes, |s.outcomes|, e)
  {
    assert Accounted(s, e);
    NothingInside(s.calls, |s.calls|, e);
  }
}
