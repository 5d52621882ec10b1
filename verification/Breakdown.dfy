/** The breakdown metrics (breakdown.go): a chained hash index written to by any number of
    goroutines, looked up optimistically and scanned again under the lock, and a pair of
    such indexes that are swapped when metrics are gathered.

    Every method of the class below is one atomic region of the code, taken by one thread
    or by the gatherer.  `Valid` holds between any two of them, in whatever order they
    come; it says that each index refines a plain map from keys to timings, and that no
    amount is lost or counted twice. */
module Breakdown {
  import opened BreakdownCalls

  const NO_KEY := Key("", "", "", "")

  const ZERO := Timing(0, 0)

  type Index = map<nat, seq<nat>>

  /** Where a thread is in recordTransaction.  Between Out and Out it holds the read lock
      of the pair of maps; `todo` are the records still to make. */
  datatype Thread =
    | Out(ok: bool)
    | Ready(todo: seq<Entry>)
    | Scanning(e: Entry, todo: seq<Entry>, snapshot: seq<nat>)
    | Locking(e: Entry, todo: seq<Entry>, offset: nat)
    | AddingCount(e: Entry, todo: seq<Entry>, slot: nat)
    | AddingDuration(e: Entry, todo: seq<Entry>, slot: nat)
  {
    predicate Inside() {
      !Out?
    }

    /** How much of an accepted amount is not yet in its slot. */
    function Pending(k: Key, p: Part): int {
      if Inside() && !Ready? && e.key == k && (AddingCount? || (AddingDuration? && p.Duration?)) then e.timing.Get(p)
      else 0
    }
  }

  // ----- sums -----

  function Total(log: seq<Entry>, k: Key, p: Part): int {
    if log == [] then 0
    else
      var n := |log| - 1;
      Total(log[..n], k, p) + if log[n].key == k then log[n].timing.Get(p) else 0
  }

  function InFlight(threads: seq<Thread>, k: Key, p: Part): int {
    if threads == [] then 0
    else
      var n := |threads| - 1;
      InFlight(threads[..n], k, p) + threads[n].Pending(k, p)
  }

  lemma TotalAppend(log: seq<Entry>, e: Entry, k: Key, p: Part)
    ensures Total(log + [e], k, p) == Total(log, k, p) + if e.key == k then e.timing.Get(p) else 0
  {
    assert (log + [e])[..|log|] == log;
  }

  lemma {:induction false} InFlightUpdate(threads: seq<Thread>, t: nat, th: Thread, k: Key, p: Part)
    requires t < |threads|
    ensures InFlight(threads[t := th], k, p) == InFlight(threads, k, p) - threads[t].Pending(k, p) + th.Pending(k, p)
  {
    var n := |threads| - 1;
    if t == n {
      assert threads[t := th][..n] == threads[..n];
    } else {
      assert threads[t := th][..n] == threads[..n][t := th];
      InFlightUpdate(threads[..n], t, th, k, p);
    }
  }

  lemma {:induction false} InFlightNone(threads: seq<Thread>, k: Key, p: Part)
    requires forall t :: 0 <= t < |threads| ==> !threads[t].Inside()
    ensures InFlight(threads, k, p) == 0
  {
    if threads != [] {
      InFlightNone(threads[..|threads| - 1], k, p);
    }
  }

  // ----- one index -----

  /** The index m over space stands for the map that has, for each key, the slot slots[key]. */
  ghost predicate Refines(hash: Key -> nat, m: Index, space: seq<Entry>, entries: nat, slots: map<Key, nat>) {
    && entries <= |space| == BREAKDOWN_METRICS_LIMIT
    && (forall k :: k in slots ==> SlotOk(hash, m, space, entries, slots[k], k))
    && (forall h :: h in m ==> BucketOk(hash, m[h], space, entries, slots, h))
  }

  ghost predicate SlotOk(hash: Key -> nat, m: Index, space: seq<Entry>, entries: nat, slot: nat, k: Key)
    requires entries <= |space|
  {
    && slot < entries && space[slot].key == k && space[slot].timing.Proper()
    && hash(k) in m && slot in m[hash(k)]
  }

  ghost predicate BucketOk(hash: Key -> nat, bucket: seq<nat>, space: seq<Entry>, entries: nat, slots: map<Key, nat>, h: nat)
    requires entries <= |space|
  {
    && bucket != []
    && (forall j :: 0 <= j < |bucket| ==>
          && bucket[j] < entries
          && hash(space[bucket[j]].key) == h
          && space[bucket[j]].key in slots && slots[space[bucket[j]].key] == bucket[j])
    && (forall i, j :: 0 <= i < j < |bucket| ==> bucket[i] != bucket[j])
  }

  /** No bucket ever holds a key twice. */
  lemma NoKeyTwice(hash: Key -> nat, m: Index, space: seq<Entry>, entries: nat, slots: map<Key, nat>, h: nat, i: nat, j: nat)
    requires Refines(hash, m, space, entries, slots) && h in m && i < j < |m[h]|
    ensures m[h][i] < |space| && m[h][j] < |space| && space[m[h][i]].key != space[m[h][j]].key
  {
    assert BucketOk(hash, m[h], space, entries, slots, h);
  }

  function Held(space: seq<Entry>, slots: map<Key, nat>, k: Key): Timing {
    if k in slots && slots[k] < |space| then space[slots[k]].timing else ZERO
  }

  /** A key missing from its bucket is missing from the map. */
  lemma MissingKey(hash: Key -> nat, m: Index, space: seq<Entry>, entries: nat, slots: map<Key, nat>, k: Key)
    requires Refines(hash, m, space, entries, slots)
    requires hash(k) in m ==>
               forall j :: 0 <= j < |m[hash(k)]| && m[hash(k)][j] < |space| ==> space[m[hash(k)][j]].key != k
    ensures k !in slots
  {
  }

  lemma InsertBucket(hash: Key -> nat, bucket: seq<nat>, space: seq<Entry>, entries: nat, slots: map<Key, nat>, h: nat, e: Entry)
    requires entries < |space| && e.key !in slots
    requires bucket == [] || BucketOk(hash, bucket, space, entries, slots, h)
    ensures hash(e.key) == h ==>
              BucketOk(hash, bucket + [entries], space[entries := e], entries + 1, slots[e.key := entries], h)
    ensures bucket != [] ==> BucketOk(hash, bucket, space[entries := e], entries + 1, slots[e.key := entries], h)
  {
  }

  function Inserted(m: Index, h: nat, entries: nat): Index {
    m[h := (if h in m then m[h] else []) + [entries]]
  }

  lemma InsertRefines(hash: Key -> nat, m: Index, space: seq<Entry>, entries: nat, slots: map<Key, nat>, e: Entry)
    requires Refines(hash, m, space, entries, slots) && e.key !in slots && entries < |space| && e.timing.Proper()
    ensures Refines(hash, Inserted(m, hash(e.key), entries), space[entries := e], entries + 1, slots[e.key := entries])
  {
    var h := hash(e.key);
    var m', space', slots' := Inserted(m, h, entries), space[entries := e], slots[e.key := entries];
    forall g | g in m'
      ensures BucketOk(hash, m'[g], space', entries + 1, slots', g)
    {
      InsertBucket(hash, if g in m then m[g] else [], space, entries, slots, g, e);
    }
    forall k | k in slots'
      ensures SlotOk(hash, m', space', entries + 1, slots'[k], k)
    {
      if k == e.key {
        assert m'[h][|m'[h]| - 1] == entries;
      } else {
        assert SlotOk(hash, m, space, entries, slots[k], k);
        assert m'[hash(k)] == m[hash(k)] || m'[hash(k)] == m[hash(k)] + [entries];
      }
    }
  }

  /** Adding to a slot keeps the shape of the index. */
  lemma AccumulateRefines(hash: Key -> nat, m: Index, space: seq<Entry>, entries: nat, slots: map<Key, nat>, i: nat, t: Timing)
    requires Refines(hash, m, space, entries, slots) && i < |space| && t.Proper()
    ensures Refines(hash, m, space[i := space[i].(timing := t)], entries, slots)
  {
    var space' := space[i := space[i].(timing := t)];
    forall h | h in m
      ensures BucketOk(hash, m[h], space', entries, slots, h)
    {
      assert BucketOk(hash, m[h], space, entries, slots, h);
    }
  }

  /** A bucket as it was read has the key. */
  ghost predicate Seen(space: seq<Entry>, snapshot: seq<nat>, k: Key) {
    exists j :: 0 <= j < |snapshot| && snapshot[j] < |space| && space[snapshot[j]].key == k
  }

  // ----- threads -----

  /** What thread th relies on, of the index its lookup was made in. */
  ghost predicate ThreadOk(hash: Key -> nat, th: Thread, m: Index, space: seq<Entry>, slots: map<Key, nat>) {
    (th.Inside() ==> forall e :: e in th.todo ==> e.timing.Proper()) &&
    match th
    case Out(_) => true
    case Ready(_) => true
    case Scanning(e, _, snapshot) =>
      e.timing.Proper() && (snapshot != [] ==> hash(e.key) in m && snapshot <= m[hash(e.key)])
    case Locking(e, _, offset) =>
      && e.timing.Proper()
      && (offset > 0 ==>
            && hash(e.key) in m && offset <= |m[hash(e.key)]|
            && forall j :: 0 <= j < offset ==> m[hash(e.key)][j] < |space| && space[m[hash(e.key)][j]].key != e.key)
    case AddingCount(e, _, slot) => e.timing.Proper() && e.key in slots && slots[e.key] == slot < |space|
    case AddingDuration(e, _, slot) =>
      && e.key in slots && slots[e.key] == slot < |space|
      && (e.timing.duration != 0 ==> space[slot].timing.count > 0)
  }

  /** The index only grows: buckets by appending, and slots keep their keys. */
  ghost predicate Grows(m: Index, space: seq<Entry>, slots: map<Key, nat>, m': Index, space': seq<Entry>, slots': map<Key, nat>) {
    && |space'| == |space|
    && (forall h :: h in m ==> h in m' && m[h] <= m'[h])
    && (forall k :: k in slots ==> k in slots' && slots'[k] == slots[k])
    && (forall h, j :: h in m && 0 <= j < |m[h]| && m[h][j] < |space| ==> space'[m[h][j]].key == space[m[h][j]].key)
    && (forall k :: k in slots && slots[k] < |space| ==> space'[slots[k]].timing.count >= space[slots[k]].timing.count)
  }

  lemma NothingGrows(m: Index, space: seq<Entry>, slots: map<Key, nat>)
    ensures Grows(m, space, slots, m, space, slots)
  {
  }

  lemma AccumulateGrows(m: Index, space: seq<Entry>, slots: map<Key, nat>, i: nat, sum: Timing)
    requires i < |space| && sum.count >= space[i].timing.count
    ensures Grows(m, space, slots, m, space[i := space[i].(timing := sum)], slots)
  {
  }

  /** So what other threads rely on survives any step. */
  lemma ThreadStays(hash: Key -> nat, th: Thread, m: Index, space: seq<Entry>, slots: map<Key, nat>,
                    m': Index, space': seq<Entry>, slots': map<Key, nat>)
    requires ThreadOk(hash, th, m, space, slots) && Grows(m, space, slots, m', space', slots')
    ensures ThreadOk(hash, th, m', space', slots')
  {
  }

  lemma LookupOk(hash: Key -> nat, todo: seq<Entry>, m: Index, space: seq<Entry>, slots: map<Key, nat>, snapshot: seq<nat>)
    requires todo != [] && ThreadOk(hash, Ready(todo), m, space, slots)
    requires snapshot == if hash(todo[0].key) in m then m[hash(todo[0].key)] else []
    ensures ThreadOk(hash, Scanning(todo[0], todo[1..], snapshot), m, space, slots)
  {
    assert todo[0] in todo;
    assert forall e :: e in todo[1..] ==> e in todo;
  }

  lemma ThreadsStay(hash: Key -> nat, threads: seq<Thread>, m: Index, space: seq<Entry>, slots: map<Key, nat>,
                    m': Index, space': seq<Entry>, slots': map<Key, nat>)
    requires ThreadsOk(hash, threads, m, space, slots) && Grows(m, space, slots, m', space', slots')
    ensures ThreadsOk(hash, threads, m', space', slots')
  {
    forall t | 0 <= t < |threads|
      ensures ThreadOk(hash, threads[t], m', space', slots')
    {
      ThreadStays(hash, threads[t], m, space, slots, m', space', slots');
    }
  }

  ghost predicate ThreadsOk(hash: Key -> nat, threads: seq<Thread>, m: Index, space: seq<Entry>, slots: map<Key, nat>) {
    forall t {:trigger threads[t]} :: 0 <= t < |threads| ==> ThreadOk(hash, threads[t], m, space, slots)
  }

  lemma ThreadPut(hash: Key -> nat, threads: seq<Thread>, t: nat, th: Thread, m: Index, space: seq<Entry>, slots: map<Key, nat>)
    requires ThreadsOk(hash, threads, m, space, slots) && t < |threads|
    ensures ThreadOk(hash, threads[t], m, space, slots)
    ensures ThreadOk(hash, th, m, space, slots) ==> ThreadsOk(hash, threads[t := th], m, space, slots)
  {
  }

  lemma SlotOfKey(hash: Key -> nat, m: Index, space: seq<Entry>, entries: nat, slots: map<Key, nat>, k: Key)
    requires Refines(hash, m, space, entries, slots) && k in slots
    ensures entries <= |space| && SlotOk(hash, m, space, entries, slots[k], k)
  {
  }

  datatype Table = Table(m: Index, space: seq<Entry>, entries: nat)

  // ----- conservation -----

  /** The law for one key: what was accepted is what was emitted, what either index holds,
      and what threads are about to add. */
  ghost predicate Balance(accepted: seq<Entry>, emitted: seq<Entry>, active: Timing, inactive: Timing,
                          threads: seq<Thread>, k: Key, p: Part)
  {
    Total(accepted, k, p) == Total(emitted, k, p) + active.Get(p) + inactive.Get(p) + InFlight(threads, k, p)
  }

  ghost predicate Balanced(accepted: seq<Entry>, emitted: seq<Entry>, space: seq<Entry>, slots: map<Key, nat>,
                           space2: seq<Entry>, slots2: map<Key, nat>, threads: seq<Thread>)
  {
    forall k, p :: Balance(accepted, emitted, Held(space, slots, k), Held(space2, slots2, k), threads, k, p)
  }

  predicate Adding(th: Thread) {
    th.AddingCount? || th.AddingDuration?
  }

  /** A thread moves without touching anything shared. */
  lemma MoveBalanced(accepted: seq<Entry>, emitted: seq<Entry>, space: seq<Entry>, slots: map<Key, nat>,
                     space2: seq<Entry>, slots2: map<Key, nat>, threads: seq<Thread>, t: nat, th: Thread)
    requires Balanced(accepted, emitted, space, slots, space2, slots2, threads) && t < |threads|
    requires !Adding(threads[t]) && !Adding(th)
    ensures Balanced(accepted, emitted, space, slots, space2, slots2, threads[t := th])
  {
    var threads' := threads[t := th];
    forall k, p
      ensures Balance(accepted, emitted, Held(space, slots, k), Held(space2, slots2, k), threads', k, p)
    {
      assert Balance(accepted, emitted, Held(space, slots, k), Held(space2, slots2, k), threads, k, p);
      InFlightUpdate(threads, t, th, k, p);
    }
  }

  /** A thread commits to adding e to a slot. */
  lemma AcceptBalanced(accepted: seq<Entry>, emitted: seq<Entry>, space: seq<Entry>, slots: map<Key, nat>,
                       space2: seq<Entry>, slots2: map<Key, nat>, threads: seq<Thread>, t: nat, th: Thread)
    requires Balanced(accepted, emitted, space, slots, space2, slots2, threads) && t < |threads|
    requires !Adding(threads[t]) && th.AddingCount?
    ensures Balanced(accepted + [th.e], emitted, space, slots, space2, slots2, threads[t := th])
  {
    var threads', accepted' := threads[t := th], accepted + [th.e];
    forall k, p
      ensures Balance(accepted', emitted, Held(space, slots, k), Held(space2, slots2, k), threads', k, p)
    {
      assert Balance(accepted, emitted, Held(space, slots, k), Held(space2, slots2, k), threads, k, p);
      InFlightUpdate(threads, t, th, k, p);
      TotalAppend(accepted, th.e, k, p);
    }
  }

  /** A thread puts a new entry in a slot of its own. */
  lemma InsertBalanced(accepted: seq<Entry>, emitted: seq<Entry>, space: seq<Entry>, slots: map<Key, nat>,
                       space2: seq<Entry>, slots2: map<Key, nat>, threads: seq<Thread>, i: nat, e: Entry)
    requires Balanced(accepted, emitted, space, slots, space2, slots2, threads)
    requires i < |space| && e.key !in slots && forall k :: k in slots ==> slots[k] != i
    ensures Balanced(accepted + [e], emitted, space[i := e], slots[e.key := i], space2, slots2, threads)
  {
    var accepted', space', slots' := accepted + [e], space[i := e], slots[e.key := i];
    forall k, p
      ensures Balance(accepted', emitted, Held(space', slots', k), Held(space2, slots2, k), threads, k, p)
    {
      assert Balance(accepted, emitted, Held(space, slots, k), Held(space2, slots2, k), threads, k, p);
      TotalAppend(accepted, e, k, p);
    }
  }

  /** A thread adds some of what it has pending to its slot. */
  lemma AddBalanced(accepted: seq<Entry>, emitted: seq<Entry>, space: seq<Entry>, slots: map<Key, nat>,
                    space2: seq<Entry>, slots2: map<Key, nat>, threads: seq<Thread>, t: nat, th: Thread,
                    key: Key, sum: Timing)
    requires Balanced(accepted, emitted, space, slots, space2, slots2, threads) && t < |threads|
    requires key in slots && slots[key] < |space| && forall k :: k in slots && k != key ==> slots[k] != slots[key]
    requires forall p :: space[slots[key]].timing.Get(p) + threads[t].Pending(key, p) == sum.Get(p) + th.Pending(key, p)
    requires (Adding(threads[t]) ==> threads[t].e.key == key) && (Adding(th) ==> th.e.key == key)
    ensures Balanced(accepted, emitted, space[slots[key] := Entry(key, sum)], slots, space2, slots2, threads[t := th])
  {
    var threads', space' := threads[t := th], space[slots[key] := Entry(key, sum)];
    forall k, p
      ensures Balance(accepted, emitted, Held(space', slots, k), Held(space2, slots2, k), threads', k, p)
    {
      assert Balance(accepted, emitted, Held(space, slots, k), Held(space2, slots2, k), threads, k, p);
      InFlightUpdate(threads, t, th, k, p);
    }
  }

  // ----- the machine of calls that is followed -----

  /** e and todo are what the call has still to do. */
  predicate AtRecord(c: Call, e: Entry, todo: seq<Entry>) {
    c.made < |c.args| && e == c.args[c.made] && todo == c.args[c.made + 1..]
  }

  /** A thread is in this call. */
  ghost predicate Tied(th: Thread, c: Call, space: seq<Entry>) {
    && c.WellFormed()
    && match th
       case Out(ok) => c.at == Returned(ok)
       case Ready(todo) => c.at == Recording && todo == c.args[c.made..]
       case Scanning(e, todo, snapshot) => c.at == Searching(Seen(space, snapshot, e.key)) && AtRecord(c, e, todo)
       case Locking(e, todo, _) => c.at == Searched && AtRecord(c, e, todo)
       case AddingCount(_, todo, _) => c.at == CountDue && todo == c.args[c.made..]
       case AddingDuration(_, todo, _) => c.at == DurationDue && todo == c.args[c.made..]
  }

  ghost predicate TiedAll(threads: seq<Thread>, calls: seq<Call>, space: seq<Entry>) {
    |calls| == |threads| && forall t :: 0 <= t < |threads| ==> Tied(threads[t], calls[t], space)
  }

  /** What of the pair of maps the machine is about. */
  datatype View = View(threads: seq<Thread>, space: seq<Entry>, entries: nat, keys: set<Key>, draining: set<Key>,
                       gathering: bool, panicked: bool, accepted: seq<Entry>)

  ghost predicate Follows(v: View, s: State) {
    && TiedAll(v.threads, s.calls, v.space)
    && v.keys == s.keys && v.entries == |s.keys| && v.draining == s.draining
    && v.gathering == s.gathering && v.panicked == s.panicked && v.accepted == s.accepted
  }

  lemma FollowsWellFormed(v: View, s: State)
    requires Follows(v, s)
    ensures WellFormed(s)
  {
    assert forall t :: 0 <= t < |s.calls| ==> Tied(v.threads[t], s.calls[t], v.space);
  }

  /** A thread goes on in its call, and the index may have grown. */
  lemma FollowsPut(v: View, s: State, t: nat, th: Thread, c: Call, v': View, s': State)
    requires Follows(v, s) && t < |v.threads| && TiedAll(v.threads, s.calls, v'.space) && Tied(th, c, v'.space)
    requires v'.threads == v.threads[t := th] && s'.calls == s.calls[t := c]
    requires v'.keys == s'.keys && v'.entries == |s'.keys| && v'.accepted == s'.accepted
    requires v'.draining == v.draining && v'.gathering == v.gathering && v'.panicked == v.panicked
    requires s'.draining == s.draining && s'.gathering == s.gathering && s'.panicked == s.panicked
    ensures Follows(v', s')
  {
  }

  /** What was read of a bucket does not change its keys. */
  lemma TiedStays(hash: Key -> nat, th: Thread, c: Call, m: Index, space: seq<Entry>, slots: map<Key, nat>,
                  m': Index, space': seq<Entry>, slots': map<Key, nat>)
    requires Tied(th, c, space) && ThreadOk(hash, th, m, space, slots) && Grows(m, space, slots, m', space', slots')
    ensures Tied(th, c, space')
  {
    if th.Scanning? {
      var h := hash(th.e.key);
      forall j | 0 <= j < |th.snapshot| && th.snapshot[j] < |space|
        ensures space'[th.snapshot[j]].key == space[th.snapshot[j]].key
      {
        assert th.snapshot[j] == m[h][j];
      }
    }
  }

  lemma TiedAllStay(hash: Key -> nat, threads: seq<Thread>, calls: seq<Call>, m: Index, space: seq<Entry>, slots: map<Key, nat>,
                    m': Index, space': seq<Entry>, slots': map<Key, nat>)
    requires TiedAll(threads, calls, space) && ThreadsOk(hash, threads, m, space, slots)
    requires Grows(m, space, slots, m', space', slots')
    ensures TiedAll(threads, calls, space')
  {
    hide Tied, ThreadOk, Grows;
    forall t | 0 <= t < |threads|
      ensures Tied(threads[t], calls[t], space')
    {
      assert ThreadOk(hash, threads[t], m, space, slots);
      TiedStays(hash, threads[t], calls[t], m, space, slots, m', space', slots');
    }
  }

  /** A bucket has the key exactly if the map does. */
  lemma SeenIsKnown(hash: Key -> nat, m: Index, space: seq<Entry>, entries: nat, slots: map<Key, nat>, k: Key)
    requires Refines(hash, m, space, entries, slots)
    ensures Seen(space, if hash(k) in m then m[hash(k)] else [], k) <==> k in slots
  {
    if k in slots {
      assert SlotOk(hash, m, space, entries, slots[k], k);
      var j :| 0 <= j < |m[hash(k)]| && m[hash(k)][j] == slots[k];
    } else if hash(k) in m {
      assert BucketOk(hash, m[hash(k)], space, entries, slots, hash(k));
    }
  }

  lemma BucketIsHas(hash: Key -> nat, m: Index, space: seq<Entry>, entries: nat, slots: map<Key, nat>, h: nat)
    requires Refines(hash, m, space, entries, slots)
    ensures h in m <==> HasBucket(hash, slots.Keys, h)
  {
    if h in m {
      assert BucketOk(hash, m[h], space, entries, slots, h);
      assert space[m[h][0]].key in slots.Keys;
    }
    if k :| k in slots.Keys && hash(k) == h {
      assert SlotOk(hash, m, space, entries, slots[k], k);
    }
  }

  lemma NoBuckets(hash: Key -> nat, m: Index, space: seq<Entry>, entries: nat, slots: map<Key, nat>)
    requires Refines(hash, m, space, entries, slots)
    ensures m == map[] <==> slots.Keys == {}
  {
    if k :| k in slots {
      assert SlotOk(hash, m, space, entries, slots[k], k);
    }
    if h :| h in m {
      assert BucketOk(hash, m[h], space, entries, slots, h);
      assert space[m[h][0]].key in slots.Keys;
    }
  }

  lemma FollowsTied(v: View, s: State, t: nat)
    requires Follows(v, s) && t < |v.threads|
    ensures TiedAll(v.threads, s.calls, v.space) && |s.calls| == |v.threads|
    ensures Tied(v.threads[t], s.calls[t], v.space)
  {
  }

  /** What comes of a record under the lock. */
  ghost predicate AfterLock(hash: Key -> nat, v: View, t: nat, v': View)
    requires t < |v.threads| && v.threads[t].Locking?
  {
    var Locking(e, todo, _) := v.threads[t];
    var known, full := e.key in v.keys, v.entries >= BREAKDOWN_METRICS_LIMIT;
    && |v'.threads| == |v.threads| && v'.threads == v.threads[t := v'.threads[t]]
    && v'.draining == v.draining && v'.gathering == v.gathering
    && v'.accepted == (if known || !full then v.accepted + [e] else v.accepted)
    && v'.keys == (if known || full then v.keys else v.keys + {e.key})
    && v'.entries == (if known || full then v.entries else v.entries + 1)
    && v'.panicked == (full && !known && HasBucket(hash, v.keys, hash(e.key)))
    && if v'.panicked then v'.threads == v.threads
       else if known then v'.threads[t].AddingCount? && v'.threads[t].todo == todo
       else v'.threads[t] == if full then Out(false) else Ready(todo)
  }

  lemma LockingFollows(hash: Key -> nat, v: View, s: State, t: nat, v': View)
    requires Follows(v, s) && !v.panicked && t < |v.threads| && v.threads[t].Locking?
    requires TiedAll(v.threads, s.calls, v'.space) && AfterLock(hash, v, t, v')
    ensures WellFormed(s) && t < |s.calls| && Follows(v', Go(hash, s, t))
  {
    hide HasBucket, TiedAll, Seen;
    FollowsWellFormed(v, s);
    FollowsTied(v, s, t);
    var s' := Go(hash, s, t);
    if v'.panicked {
      assert s' == s.(panicked := true);
    } else {
      assert v.entries < BREAKDOWN_METRICS_LIMIT && v.threads[t].e.key !in v.keys ==>
             |s.keys + {v.threads[t].e.key}| == |s.keys| + 1;
      FollowsPut(v, s, t, v'.threads[t], s'.calls[t], v', s');
    }
  }

  /** The next of the records still to make. */
  lemma NextRecord(c: Call)
    requires c.made <= |c.args|
    ensures c.args[c.made..] == [] <==> c.made == |c.args|
    ensures c.made < |c.args| ==> c.args[c.made..][0] == c.args[c.made] && c.args[c.made..][1..] == c.args[c.made + 1..]
  {
  }

  class BreakdownMetrics {
    const hash: Key -> nat
    var active: Table
    var inactive: Table
    var gathering: bool
    var emitted: seq<Entry>
    var threads: seq<Thread>

    /** An index out of range, while the lock was held. */
    var panicked: bool

    ghost var activeSlots: map<Key, nat>
    ghost var inactiveSlots: map<Key, nat>
    ghost var accepted: seq<Entry>

    ghost predicate Valid()
      reads this
    {
      && Refines(hash, active.m, active.space, active.entries, activeSlots)
      && Refines(hash, inactive.m, inactive.space, inactive.entries, inactiveSlots)
      && (!gathering ==> inactive.m == map[] && inactive.entries == 0 && inactiveSlots == map[])
      && ThreadsOk(hash, threads, active.m, active.space, activeSlots)
      && Balanced(accepted, emitted, active.space, activeSlots, inactive.space, inactiveSlots, threads)
    }

    constructor (hash: Key -> nat, n: nat)
      ensures Valid() && !panicked && !gathering && |threads| == n && accepted == [] && emitted == []
      ensures this.hash == hash && active.m == map[] && active.entries == 0 && activeSlots == map[]
      ensures forall t :: 0 <= t < n ==> threads[t] == Out(true)
      ensures inactiveSlots == map[]
    {
      this.hash := hash;
      var space := seq(BREAKDOWN_METRICS_LIMIT, _ => Entry(NO_KEY, ZERO));
      active, inactive := Table(map[], space, 0), Table(map[], space, 0);
      gathering, emitted, panicked := false, [], false;
      threads := seq(n, _ => Out(true));
      activeSlots, inactiveSlots, accepted := map[], map[], [];
      new;
      ghost var ths := threads;
      forall k, p
        ensures Balance([], [], Held(space, map[], k), Held(space, map[], k), ths, k, p)
      {
        InFlightNone(ths, k, p);
      }
    }

    /** Thread t moves without touching anything shared. */
    method Move(t: nat, th: Thread)
      requires Valid() && t < |threads| && ThreadOk(hash, th, active.m, active.space, activeSlots)
      requires !Adding(threads[t]) && !Adding(th)
      modifies this`threads
      ensures Valid() && threads == old(threads)[t := th]
    {
      MoveBalanced(accepted, emitted, active.space, activeSlots, inactive.space, inactiveSlots, threads, t, th);
      threads := threads[t := th];
    }

    /** recordTransaction begins: takes the read lock of the pair of maps. */
    method Enter(t: nat, todo: seq<Entry>)
      requires Valid() && !panicked && t < |threads| && threads[t].Out?
      requires forall e :: e in todo ==> e.timing.Proper()
      modifies this`threads
      ensures Valid() && threads == old(threads)[t := Ready(todo)]
    {
      Move(t, Ready(todo));
    }

    /** recordTransaction ends with every record made. */
    method Leave(t: nat)
      requires Valid() && !panicked && t < |threads| && threads[t] == Ready([])
      modifies this`threads
      ensures Valid() && threads == old(threads)[t := Out(true)]
    {
      Move(t, Out(true));
    }

    /** record: reads the bucket under the read lock of the map. */
    method Lookup(t: nat)
      requires Valid() && !panicked && t < |threads| && threads[t].Ready? && threads[t].todo != []
      modifies this`threads
      ensures Valid()
      ensures var e := old(threads)[t].todo[0];
              threads == old(threads)[t := Scanning(e, old(threads)[t].todo[1..],
                                                    if hash(e.key) in active.m then active.m[hash(e.key)] else [])]
    {
      var todo := threads[t].todo;
      var snapshot := if hash(todo[0].key) in active.m then active.m[hash(todo[0].key)] else [];
      assert ThreadOk(hash, threads[t], active.m, active.space, activeSlots);
      LookupOk(hash, todo, active.m, active.space, activeSlots, snapshot);
      Move(t, Scanning(todo[0], todo[1..], snapshot));
    }

    /** A record finds its slot, and is committed to adding to it. */
    method Accept(t: nat, th: Thread)
      requires Valid() && t < |threads| && th.AddingCount?
      requires !Adding(threads[t])
      requires ThreadOk(hash, th, active.m, active.space, activeSlots)
      modifies this`threads, this`accepted
      ensures Valid() && threads == old(threads)[t := th] && accepted == old(accepted) + [th.e]
    {
      AcceptBalanced(accepted, emitted, active.space, activeSlots, inactive.space, inactiveSlots, threads, t, th);
      threads := threads[t := th];
      accepted := accepted + [th.e];
    }

    /** record: scans the bucket as it was read, without a lock. */
    method Scan(t: nat)
      requires Valid() && !panicked && t < |threads| && threads[t].Scanning?
      modifies this`threads, this`accepted
      ensures Valid() && |threads| == |old(threads)| && threads == old(threads)[t := threads[t]]
      ensures var Scanning(e, todo, snapshot) := old(threads)[t];
              if Seen(active.space, snapshot, e.key) then
                && threads[t].AddingCount? && threads[t] == AddingCount(e, todo, threads[t].slot)
                && threads[t].slot in snapshot && accepted == old(accepted) + [e]
              else threads[t] == Locking(e, todo, |snapshot|) && accepted == old(accepted)
    {
      var Scanning(e, todo, snapshot) := threads[t];
      ghost var h := hash(e.key);
      assert ThreadOk(hash, threads[t], active.m, active.space, activeSlots);
      assert snapshot != [] ==> BucketOk(hash, active.m[h], active.space, active.entries, activeSlots, h);
      var offset := 0;
      while offset < |snapshot|
        invariant offset <= |snapshot|
        invariant forall j :: 0 <= j < offset ==> snapshot[j] < |active.space| && active.space[snapshot[j]].key != e.key
      {
        assert snapshot[offset] == active.m[h][offset];
        if active.space[snapshot[offset]].key == e.key {
          Accept(t, AddingCount(e, todo, snapshot[offset]));
          return;
        }
        offset := offset + 1;
      }
      Move(t, Locking(e, todo, offset));
    }

    /** record, under the write lock of the map: scans what was appended since the lookup,
        and failing that puts a new entry in the next slot.

        The test for a full map is made only when the key's bucket does not exist.  So a
        full map, an existing bucket and a new key make the code run off the end of the
        space; and only those. */
    method Insert(t: nat)
      requires Valid() && !panicked && t < |threads| && threads[t].Locking?
      modifies this`threads, this`accepted, this`active, this`activeSlots, this`panicked
      ensures Valid() && |threads| == |old(threads)| && threads == old(threads)[t := threads[t]]
      ensures Grows(old(active).m, old(active).space, old(activeSlots), active.m, active.space, activeSlots)
      ensures threads[t].AddingCount? ==> threads[t].e == old(threads)[t].e && threads[t].todo == old(threads)[t].todo
      ensures panicked ==> threads == old(threads)
      ensures var e, full := old(threads)[t].e, old(active).entries >= BREAKDOWN_METRICS_LIMIT;
              var known, bucket := e.key in old(activeSlots), hash(e.key) in old(active).m;
              && (panicked <==> full && !known && bucket)
              && (threads[t] == Out(false) <==> full && !known && !bucket)
              && (threads[t].AddingCount? <==> known)
              && (threads[t] == Ready(old(threads)[t].todo) <==> !full && !known)
              && (accepted == if known || !full then old(accepted) + [e] else old(accepted))
              && (activeSlots == if known || full then old(activeSlots) else old(activeSlots)[e.key := old(active).entries])
              && (active.entries == if known || full then old(active).entries else old(active).entries + 1)
    {
      hide Balanced, Grows;
      NothingGrows(active.m, active.space, activeSlots);
      var Locking(e, todo, offset) := threads[t];
      var h := hash(e.key);
      assert ThreadOk(hash, threads[t], active.m, active.space, activeSlots);
      if h in active.m {
        var bucket := active.m[h];
        assert BucketOk(hash, bucket, active.space, active.entries, activeSlots, h);
        var i := offset;
        while i < |bucket|
          invariant offset <= i <= |bucket|
          invariant forall j :: 0 <= j < i ==> active.space[bucket[j]].key != e.key
        {
          if active.space[bucket[i]].key == e.key {
            Accept(t, AddingCount(e, todo, bucket[i]));
            return;
          }
          i := i + 1;
        }
      } else if active.entries >= BREAKDOWN_METRICS_LIMIT {
        MissingKey(hash, active.m, active.space, active.entries, activeSlots, e.key);
        Move(t, Out(false));
        return;
      }
      MissingKey(hash, active.m, active.space, active.entries, activeSlots, e.key);
      if active.entries >= BREAKDOWN_METRICS_LIMIT {
        panicked := true;
        return;
      }
      Append(e);
      Move(t, Ready(todo));
    }

    /** A new entry in the next slot, and its index at the end of its bucket. */
    method Append(e: Entry)
      requires Valid() && active.entries < BREAKDOWN_METRICS_LIMIT && e.key !in activeSlots && e.timing.Proper()
      modifies this`accepted, this`active, this`activeSlots
      ensures Valid() && accepted == old(accepted) + [e]
      ensures activeSlots == old(activeSlots)[e.key := old(active).entries] && active.entries == old(active).entries + 1
      ensures Grows(old(active).m, old(active).space, old(activeSlots), active.m, active.space, activeSlots)
    {
      ghost var a, slots := active, activeSlots;
      var m' := Inserted(active.m, hash(e.key), active.entries);
      InsertRefines(hash, a.m, a.space, a.entries, slots, e);
      InsertGrows(hash, a.m, a.space, a.entries, slots, e);
      InsertBalanced(accepted, emitted, a.space, slots, inactive.space, inactiveSlots, threads, a.entries, e);
      ThreadsStay(hash, threads, a.m, a.space, slots, m', a.space[a.entries := e], slots[e.key := a.entries]);
      active := Table(m', active.space[active.entries := e], active.entries + 1);
      activeSlots, accepted := slots[e.key := a.entries], accepted + [e];
    }

    /** accumulate, the first of its two atomic additions. */
    method AddCount(t: nat)
      requires Valid() && !panicked && t < |threads| && threads[t].AddingCount?
      modifies this`threads, this`active
      ensures Valid()
      ensures threads == old(threads)[t := AddingDuration(old(threads)[t].e, old(threads)[t].todo, old(threads)[t].slot)]
      ensures active.entries == old(active).entries
      ensures Grows(old(active).m, old(active).space, old(activeSlots), active.m, active.space, activeSlots)
    {
      var AddingCount(e, todo, i) := threads[t];
      assert ThreadOk(hash, threads[t], active.m, active.space, activeSlots);
      var timing := active.space[i].timing;
      Add(t, AddingDuration(e, todo, i), e.key, Timing(timing.count + e.timing.count, timing.duration));
    }

    /** accumulate, the second. */
    method AddDuration(t: nat)
      requires Valid() && !panicked && t < |threads| && threads[t].AddingDuration?
      modifies this`threads, this`active
      ensures Valid() && threads == old(threads)[t := Ready(old(threads)[t].todo)]
      ensures active.entries == old(active).entries
      ensures Grows(old(active).m, old(active).space, old(activeSlots), active.m, active.space, activeSlots)
    {
      var AddingDuration(e, todo, i) := threads[t];
      assert ThreadOk(hash, threads[t], active.m, active.space, activeSlots);
      var timing := active.space[i].timing;
      Add(t, Ready(todo), e.key, Timing(timing.count, timing.duration + e.timing.duration));
    }

    method Add(t: nat, th: Thread, key: Key, sum: Timing)
      requires Valid() && t < |threads| && Adding(threads[t]) && threads[t].e.key == key
      requires th.Ready? || (th.AddingDuration? && th.e.key == key)
      requires th.todo == threads[t].todo && sum.Proper() && (th.AddingDuration? ==> th.slot == threads[t].slot)
      requires var i := threads[t].slot;
               && i < |active.space| && sum.count >= active.space[i].timing.count
               && (th.AddingDuration? && th.e.timing.duration != 0 ==> sum.count > 0)
               && forall p :: active.space[i].timing.Get(p) + threads[t].Pending(key, p) == sum.Get(p) + th.Pending(key, p)
      modifies this`threads, this`active
      ensures Valid() && threads == old(threads)[t := th] && active.entries == old(active).entries
      ensures Grows(old(active).m, old(active).space, old(activeSlots), active.m, active.space, activeSlots)
    {
      hide Balanced, Grows, Refines, ThreadsOk;
      var i := threads[t].slot;
      ghost var a, space' := active, active.space[i := Entry(key, sum)];
      ThreadPut(hash, threads, t, th, a.m, a.space, activeSlots);
      SlotOfKey(hash, a.m, a.space, a.entries, activeSlots, key);
      assert a.space[i].(timing := sum) == Entry(key, sum);
      AccumulateRefines(hash, a.m, a.space, a.entries, activeSlots, i, sum);
      AccumulateGrows(a.m, a.space, activeSlots, i, sum);
      SlotsApart(hash, a.m, a.space, a.entries, activeSlots, key);
      AddBalanced(accepted, emitted, a.space, activeSlots, inactive.space, inactiveSlots, threads, t, th, key, sum);
      ThreadsStay(hash, threads, a.m, a.space, activeSlots, a.m, space', activeSlots);
      ThreadPut(hash, threads, t, th, a.m, space', activeSlots);
      active := active.(space := active.space[i := Entry(key, sum)]);
      threads := threads[t := th];
    }

    /** gather: swaps the maps under the write lock, so with no thread in recordTransaction. */
    method Swap()
      requires Valid() && !panicked && !gathering && forall t :: 0 <= t < |threads| ==> !threads[t].Inside()
      modifies this`active, this`inactive, this`gathering, this`activeSlots, this`inactiveSlots
      ensures Valid() && gathering
      ensures active == old(inactive) && inactive == old(active)
      ensures activeSlots == map[] && inactiveSlots == old(activeSlots)
    {
      SwapBalanced(accepted, emitted, active.space, activeSlots, inactive.space, inactiveSlots, threads);
      active, inactive := inactive, active;
      activeSlots, inactiveSlots := inactiveSlots, activeSlots;
      gathering := true;
    }

    /** gather: emits the entries of one bucket, releases their keys and deletes the bucket. */
    method Drain(h: nat)
      requires Valid() && !panicked && gathering && h in inactive.m
      modifies this`inactive, this`emitted, this`inactiveSlots
      ensures Valid() && inactive.m == old(inactive).m - {h}
      ensures emitted == old(emitted) + Emission(old(inactive).space, old(inactive).m[h])
      ensures inactiveSlots == SlotsBut(hash, old(inactiveSlots), h)
    {
      hide Balanced, ThreadsOk;
      var out, space := EmitBucket(hash, inactive, inactiveSlots, h);
      DrainBalanced(hash, inactive.m, inactive.entries, accepted, emitted, active.space, activeSlots,
                    inactive.space, inactiveSlots, threads, h, space);
      emitted := emitted + out;
      inactive := inactive.(m := inactive.m - {h}, space := space);
      inactiveSlots := SlotsBut(hash, inactiveSlots, h);
    }

    /** gather: ends when no bucket is left. */
    method FinishGather()
      requires Valid() && !panicked && gathering && inactive.m == map[]
      modifies this`inactive, this`gathering
      ensures Valid() && !gathering && inactiveSlots == map[]
    {
      SlotsIndexed(hash, inactive.m, inactive.space, inactive.entries, inactiveSlots);
      assert inactiveSlots == map[];
      inactive := inactive.(entries := 0);
      gathering := false;
    }

    ghost function ViewOf(): View
      reads this
    {
      View(threads, active.space, active.entries, activeSlots.Keys, inactiveSlots.Keys, gathering, panicked, accepted)
    }

    method GoReady(t: nat, ghost s: State)
      requires Valid() && !panicked && t < |threads| && threads[t].Ready? && Follows(ViewOf(), s)
      modifies this
      ensures Valid() && WellFormed(s) && t < |s.calls| && Follows(ViewOf(), Go(hash, s, t))
    {
      hide Refines, ThreadsOk, Balanced, Grows, TiedAll, Seen;
      FollowsTied(ViewOf(), s, t);
      ghost var v, c := ViewOf(), s.calls[t];
      FollowsWellFormed(v, s);
      NextRecord(c);
      if threads[t].todo == [] {
        Leave(t);
        FollowsPut(v, s, t, threads[t], c.(at := Returned(true)), ViewOf(), Go(hash, s, t));
      } else {
        SeenIsKnown(hash, active.m, active.space, active.entries, activeSlots, threads[t].todo[0].key);
        Lookup(t);
        FollowsPut(v, s, t, threads[t], Go(hash, s, t).calls[t], ViewOf(), Go(hash, s, t));
      }
    }

    method GoScanning(t: nat, ghost s: State)
      requires Valid() && !panicked && t < |threads| && threads[t].Scanning? && Follows(ViewOf(), s)
      modifies this
      ensures Valid() && WellFormed(s) && t < |s.calls| && Follows(ViewOf(), Go(hash, s, t))
    {
      hide Refines, ThreadsOk, Balanced, Grows, TiedAll, Seen;
      ghost var v := ViewOf();
      FollowsWellFormed(v, s);
      FollowsTied(ViewOf(), s, t);
      Scan(t);
      FollowsPut(v, s, t, threads[t], Go(hash, s, t).calls[t], ViewOf(), Go(hash, s, t));
    }

    method GoLocking(t: nat, ghost s: State)
      requires Valid() && !panicked && t < |threads| && threads[t].Locking? && Follows(ViewOf(), s)
      modifies this
      ensures Valid() && WellFormed(s) && t < |s.calls| && Follows(ViewOf(), Go(hash, s, t))
    {
      hide Refines, ThreadsOk, Balanced, Grows, Follows, Tied, TiedAll, HasBucket, Go;
      ghost var v, a, slots, ths := ViewOf(), active, activeSlots, threads;
      FollowsWellFormed(v, s);
      FollowsTied(v, s, t);
      BucketIsHas(hash, a.m, a.space, a.entries, slots, hash(threads[t].e.key));
      Insert(t);
      TiedAllStay(hash, ths, s.calls, a.m, a.space, slots, active.m, active.space, activeSlots);
      LockingFollows(hash, v, s, t, ViewOf());
    }

    method GoAdding(t: nat, ghost s: State)
      requires Valid() && !panicked && t < |threads| && Adding(threads[t]) && Follows(ViewOf(), s)
      modifies this
      ensures Valid() && WellFormed(s) && t < |s.calls| && Follows(ViewOf(), Go(hash, s, t))
    {
      hide Refines, ThreadsOk, Balanced, Grows, TiedAll, Seen;
      ghost var v, a, slots, ths := ViewOf(), active, activeSlots, threads;
      FollowsWellFormed(v, s);
      FollowsTied(ViewOf(), s, t);
      if threads[t].AddingCount? {
        AddCount(t);
      } else {
        AddDuration(t);
      }
      TiedAllStay(hash, ths, s.calls, a.m, a.space, slots, active.m, active.space, activeSlots);
      FollowsPut(v, s, t, threads[t], Go(hash, s, t).calls[t], ViewOf(), Go(hash, s, t));
    }

    method TakeBegin(t: nat, todo: seq<Entry>, ghost s: State)
      requires Valid() && !panicked && Follows(ViewOf(), s)
      modifies this
      ensures Valid() && WellFormed(s) && Follows(ViewOf(), Next(hash, s, Begin(t, todo)))
    {
      hide Refines, ThreadsOk, Balanced, Grows;
      ghost var v := ViewOf();
      FollowsWellFormed(v, s);
      assert t < |threads| ==> Tied(threads[t], s.calls[t], active.space);
      if t < |threads| && threads[t].Out? && AllProper(todo) {
        Enter(t, todo);
        ghost var c := Call(todo, 0, Recording);
        assert todo[0..] == todo;
        FollowsPut(v, s, t, Ready(todo), c, ViewOf(), Put(s, t, c));
      }
    }

    method TakeAdvance(t: nat, ghost s: State)
      requires Valid() && !panicked && Follows(ViewOf(), s)
      modifies this
      ensures Valid() && WellFormed(s) && Follows(ViewOf(), Next(hash, s, Advance(t)))
    {
      hide Refines, ThreadsOk, Balanced, Grows;
      FollowsWellFormed(ViewOf(), s);
      if t < |threads| {
        assert Tied(threads[t], s.calls[t], active.space);
        match threads[t] {
          case Out(_) =>
          case Ready(_) => GoReady(t, s);
          case Scanning(_, _, _) => GoScanning(t, s);
          case Locking(_, _, _) => GoLocking(t, s);
          case _ => GoAdding(t, s);
        }
      }
    }

    method TakeSwap(ghost s: State)
      requires Valid() && !panicked && Follows(ViewOf(), s)
      modifies this
      ensures Valid() && WellFormed(s) && Follows(ViewOf(), Next(hash, s, StartGather))
    {
      hide Refines, ThreadsOk, Balanced, Grows;
      FollowsWellFormed(ViewOf(), s);
      ghost var v := ViewOf();
      assert forall t :: 0 <= t < |threads| ==> Tied(threads[t], s.calls[t], active.space);
      if !gathering && forall t :: 0 <= t < |threads| ==> !threads[t].Inside() {
        Swap();
        assert forall t :: 0 <= t < |threads| ==> Tied(threads[t], s.calls[t], active.space);
      }
    }

    method TakeBucket(h: nat, ghost s: State)
      requires Valid() && !panicked && Follows(ViewOf(), s)
      modifies this
      ensures Valid() && WellFormed(s) && Follows(ViewOf(), Next(hash, s, GatherBucket(h)))
    {
      hide Refines, ThreadsOk, Balanced, Grows;
      FollowsWellFormed(ViewOf(), s);
      BucketIsHas(hash, inactive.m, inactive.space, inactive.entries, inactiveSlots, h);
      if gathering && h in inactive.m {
        Drain(h);
      }
    }

    method TakeEnd(ghost s: State)
      requires Valid() && !panicked && Follows(ViewOf(), s)
      modifies this
      ensures Valid() && WellFormed(s) && Follows(ViewOf(), Next(hash, s, EndGather))
    {
      hide Refines, ThreadsOk, Balanced, Grows;
      FollowsWellFormed(ViewOf(), s);
      NoBuckets(hash, inactive.m, inactive.space, inactive.entries, inactiveSlots);
      if gathering && inactive.m == map[] {
        FinishGather();
      }
    }

    /** One step of a schedule, taken if it can be: just as the machine of calls takes it. */
    method Take(step: Step, ghost s: State)
      requires Valid() && !panicked && Follows(ViewOf(), s)
      modifies this
      ensures Valid() && WellFormed(s) && Follows(ViewOf(), Next(hash, s, step))
    {
      match step {
        case Begin(t, todo) => TakeBegin(t, todo, s);
        case Advance(t) => TakeAdvance(t, s);
        case StartGather => TakeSwap(s);
        case GatherBucket(h) => TakeBucket(h, s);
        case EndGather => TakeEnd(s);
      }
    }

    /** Every interleaving of records and gathers: wherever it stops no amount is lost, and the
        calls and what was accepted are those of the machine. */
    method Run(schedule: seq<Step>, ghost s: State)
      requires Valid() && !panicked && Follows(ViewOf(), s)
      modifies this
      ensures Valid() && WellFormed(s) && Follows(ViewOf(), After(hash, s, schedule, |schedule|))
    {
      FollowsWellFormed(ViewOf(), s);
      for i := 0 to |schedule|
        invariant Valid() && Follows(ViewOf(), After(hash, s, schedule, i))
      {
        if !panicked {
          Take(schedule[i], After(hash, s, schedule, i));
        }
      }
    }
  }

  /** From the start, over every schedule: the promise of recordTransaction is kept, for as many
      threads and with whatever hash. */
  method RunFromStart(hash: Key -> nat, threads: nat, schedule: seq<Step>)
    returns (b: BreakdownMetrics, ghost s: State)
    ensures fresh(b) && b.Valid() && b.hash == hash
    ensures WellFormed(Start(threads)) && s == After(hash, Start(threads), schedule, |schedule|)
    ensures Follows(b.ViewOf(), s) && Promise(s)
  {
    b := new BreakdownMetrics(hash, threads);
    s := Start(threads);
    assert forall t :: 0 <= t < threads ==> Tied(b.threads[t], s.calls[t], b.active.space);
    b.Run(schedule, s);
    PromiseKept(hash, threads, schedule, |schedule|);
    s := After(hash, s, schedule, |schedule|);
  }

  /** With no thread inside and no gathering under way, what was accepted for a key is what
      has been emitted for it and what its slot holds. */
  lemma NothingLost(b: BreakdownMetrics, k: Key, p: Part)
    requires b.Valid() && !b.gathering && forall t :: 0 <= t < |b.threads| ==> !b.threads[t].Inside()
    ensures Total(b.accepted, k, p) == Total(b.emitted, k, p) + Held(b.active.space, b.activeSlots, k).Get(p)
  {
    assert Balance(b.accepted, b.emitted, Held(b.active.space, b.activeSlots, k),
                   Held(b.inactive.space, b.inactiveSlots, k), b.threads, k, p);
    InFlightNone(b.threads, k, p);
  }

  lemma SlotsIndexed(hash: Key -> nat, m: Index, space: seq<Entry>, entries: nat, slots: map<Key, nat>)
    requires Refines(hash, m, space, entries, slots)
    ensures forall k :: k in slots ==> hash(k) in m && slots[k] < |space| && space[slots[k]].key == k
  {
    forall k | k in slots
      ensures hash(k) in m && slots[k] < |space| && space[slots[k]].key == k
    {
      assert SlotOk(hash, m, space, entries, slots[k], k);
    }
  }

  /** The loop of gather over one bucket. */
  method EmitBucket(hash: Key -> nat, table: Table, ghost slots: map<Key, nat>, h: nat)
    returns (out: seq<Entry>, space: seq<Entry>)
    requires Refines(hash, table.m, table.space, table.entries, slots) && h in table.m
    ensures BucketOk(hash, table.m[h], table.space, table.entries, slots, h)
    ensures out == Emission(table.space, table.m[h])
    ensures Refines(hash, table.m - {h}, space, table.entries, SlotsBut(hash, slots, h))
    ensures forall k :: k in SlotsBut(hash, slots, h) ==> space[slots[k]] == table.space[slots[k]]
    ensures forall i :: 0 <= i < |space| && i in table.m[h] ==> space[i].key == NO_KEY
  {
    hide SlotsBut, Emission;
    var bucket := table.m[h];
    ghost var rest := SlotsBut(hash, slots, h);
    assert BucketOk(hash, bucket, table.space, table.entries, slots, h);
    RestRefines(hash, table.m, table.space, table.entries, slots, h);
    out, space := [], table.space;
    EmissionOfMore(table.space, bucket, 0);
    for j := 0 to |bucket|
      invariant Refines(hash, table.m - {h}, space, table.entries, rest)
      invariant forall i :: j <= i < |bucket| ==> space[bucket[i]] == table.space[bucket[i]]
      invariant forall i :: 0 <= i < j ==> space[bucket[i]].key == NO_KEY
      invariant forall k :: k in rest ==> rest[k] < |space| && space[rest[k]] == table.space[rest[k]]
      invariant out == Emission(table.space, bucket[..j])
    {
      var i := bucket[j];
      EmissionOfMore(table.space, bucket, j);
      if space[i].timing.count > 0 {
        out := out + [space[i]];
      }
      ReleaseKeepsRest(hash, table.m, table.space, table.entries, slots, h, space, i);
      space := space[i := space[i].(key := NO_KEY)];
    }
    assert bucket[..|bucket|] == bucket;
  }

  lemma SwapBalanced(accepted: seq<Entry>, emitted: seq<Entry>, space: seq<Entry>, slots: map<Key, nat>,
                     space2: seq<Entry>, slots2: map<Key, nat>, threads: seq<Thread>)
    requires Balanced(accepted, emitted, space, slots, space2, slots2, threads)
    ensures Balanced(accepted, emitted, space2, slots2, space, slots, threads)
  {
    forall k, p
      ensures Balance(accepted, emitted, Held(space2, slots2, k), Held(space, slots, k), threads, k, p)
    {
      assert Balance(accepted, emitted, Held(space, slots, k), Held(space2, slots2, k), threads, k, p);
    }
  }

  // ----- gathering -----

  function SlotsBut(hash: Key -> nat, slots: map<Key, nat>, h: nat): map<Key, nat> {
    map k | k in slots && hash(k) != h :: slots[k]
  }

  /** The metrics emitted for a bucket: its entries with a count, in order. */
  function Emission(space: seq<Entry>, bucket: seq<nat>): seq<Entry>
    requires forall j :: 0 <= j < |bucket| ==> bucket[j] < |space|
  {
    if bucket == [] then []
    else
      var n := |bucket| - 1;
      Emission(space, bucket[..n]) + if space[bucket[n]].timing.count > 0 then [space[bucket[n]]] else []
  }

  lemma EmissionOfMore(space: seq<Entry>, bucket: seq<nat>, j: nat)
    requires (forall i :: 0 <= i < |bucket| ==> bucket[i] < |space|) && j <= |bucket|
    ensures j == 0 ==> Emission(space, bucket[..j]) == []
    ensures j < |bucket| ==>
              Emission(space, bucket[..j + 1]) ==
              Emission(space, bucket[..j]) + if space[bucket[j]].timing.count > 0 then [space[bucket[j]]] else []
  {
    if j < |bucket| {
      assert bucket[..j + 1][..j] == bucket[..j];
    }
  }

  lemma RestRefines(hash: Key -> nat, m: Index, space: seq<Entry>, entries: nat, slots: map<Key, nat>, h: nat)
    requires Refines(hash, m, space, entries, slots)
    ensures Refines(hash, m - {h}, space, entries, SlotsBut(hash, slots, h))
  {
    var rest := SlotsBut(hash, slots, h);
    forall g | g in m - {h}
      ensures BucketOk(hash, (m - {h})[g], space, entries, rest, g)
    {
      assert BucketOk(hash, m[g], space, entries, slots, g);
    }
    forall k | k in rest
      ensures SlotOk(hash, m - {h}, space, entries, rest[k], k)
    {
      assert SlotOk(hash, m, space, entries, slots[k], k);
    }
  }

  /** Releasing the key of a slot of bucket h does not touch the other buckets. */
  lemma ReleaseKeepsRest(hash: Key -> nat, m: Index, space: seq<Entry>, entries: nat, slots: map<Key, nat>, h: nat,
                         space': seq<Entry>, i: nat)
    requires Refines(hash, m, space, entries, slots) && h in m && i in m[h] && |space'| == |space|
    requires Refines(hash, m - {h}, space', entries, SlotsBut(hash, slots, h))
    ensures i < |space| && Refines(hash, m - {h}, space'[i := space'[i].(key := NO_KEY)], entries, SlotsBut(hash, slots, h))
    ensures forall k :: k in SlotsBut(hash, slots, h) ==> SlotsBut(hash, slots, h)[k] != i
  {
    var rest := SlotsBut(hash, slots, h);
    assert BucketOk(hash, m[h], space, entries, slots, h);
    assert hash(space[i].key) == h;
    forall k | k in rest
      ensures rest[k] != i
    {
      assert SlotOk(hash, m, space, entries, slots[k], k);
    }
    var space'' := space'[i := space'[i].(key := NO_KEY)];
    forall g | g in m - {h}
      ensures BucketOk(hash, (m - {h})[g], space'', entries, rest, g)
    {
      assert BucketOk(hash, (m - {h})[g], space', entries, rest, g);
    }
    forall k | k in rest
      ensures SlotOk(hash, m - {h}, space'', entries, rest[k], k)
    {
      assert SlotOk(hash, m - {h}, space', entries, rest[k], k);
    }
  }

  lemma {:induction false} TotalConcat(a: seq<Entry>, b: seq<Entry>, k: Key, p: Part)
    ensures Total(a + b, k, p) == Total(a, k, p) + Total(b, k, p)
  {
    if b == [] {
      assert a + b == a;
    } else {
      var n := |b| - 1;
      assert (a + b)[..|a| + n] == a + b[..n];
      TotalConcat(a, b[..n], k, p);
    }
  }

  /** The emission of a bucket has, for each key, exactly what its slot held. */
  lemma {:induction false} EmissionTotal(hash: Key -> nat, bucket: seq<nat>, n: nat, space: seq<Entry>, entries: nat,
                                         slots: map<Key, nat>, h: nat, k: Key, p: Part)
    requires entries <= |space| && BucketOk(hash, bucket, space, entries, slots, h) && n <= |bucket|
    requires forall j :: 0 <= j < |bucket| ==> space[bucket[j]].timing.Proper()
    requires k in slots ==> slots[k] < |space| && space[slots[k]].key == k
    ensures Total(Emission(space, bucket[..n]), k, p) ==
            if k in slots && slots[k] in bucket[..n] then space[slots[k]].timing.Get(p) else 0
  {
    if n > 0 {
      var i := bucket[n - 1];
      assert bucket[..n][..n - 1] == bucket[..n - 1];
      EmissionTotal(hash, bucket, n - 1, space, entries, slots, h, k, p);
      assert bucket[..n] == bucket[..n - 1] + [i];
      EmissionStep(Emission(space, bucket[..n - 1]), space[i], k, p);
      assert i !in bucket[..n - 1];
    }
  }

  lemma EmissionStep(out: seq<Entry>, e: Entry, k: Key, p: Part)
    requires e.timing.Proper()
    ensures Total(out + (if e.timing.count > 0 then [e] else []), k, p) ==
            Total(out, k, p) + if e.key == k then e.timing.Get(p) else 0
  {
    TotalAppend(out, e, k, p);
    assert out + [] == out;
  }

  lemma DrainBalanced(hash: Key -> nat, m: Index, entries: nat, accepted: seq<Entry>, emitted: seq<Entry>,
                      space: seq<Entry>, slots: map<Key, nat>, space2: seq<Entry>, slots2: map<Key, nat>,
                      threads: seq<Thread>, h: nat, space2': seq<Entry>)
    requires Balanced(accepted, emitted, space, slots, space2, slots2, threads)
    requires Refines(hash, m, space2, entries, slots2) && h in m && |space2'| == |space2|
    requires forall k :: k in SlotsBut(hash, slots2, h) ==> slots2[k] < |space2| && space2'[slots2[k]] == space2[slots2[k]]
    requires BucketOk(hash, m[h], space2, entries, slots2, h)
    ensures Balanced(accepted, emitted + Emission(space2, m[h]), space, slots, space2', SlotsBut(hash, slots2, h), threads)
  {
    var rest, emitted' := SlotsBut(hash, slots2, h), emitted + Emission(space2, m[h]);
    forall k, p
      ensures Balance(accepted, emitted', Held(space, slots, k), Held(space2', rest, k), threads, k, p)
    {
      assert Balance(accepted, emitted, Held(space, slots, k), Held(space2, slots2, k), threads, k, p);
      TotalConcat(emitted, Emission(space2, m[h]), k, p);
      EmissionIsHeld(hash, m, entries, space2, slots2, h, k, p);
    }
  }

  /** What a bucket emits for a key is what the index held for it. */
  lemma EmissionIsHeld(hash: Key -> nat, m: Index, entries: nat, space: seq<Entry>, slots: map<Key, nat>, h: nat,
                       k: Key, p: Part)
    requires Refines(hash, m, space, entries, slots) && h in m
    requires BucketOk(hash, m[h], space, entries, slots, h)
    ensures Total(Emission(space, m[h]), k, p) == if hash(k) == h then Held(space, slots, k).Get(p) else 0
  {
    var bucket := m[h];
    forall j | 0 <= j < |bucket|
      ensures space[bucket[j]].timing.Proper()
    {
      assert SlotOk(hash, m, space, entries, slots[space[bucket[j]].key], space[bucket[j]].key);
    }
    assert k in slots ==> SlotOk(hash, m, space, entries, slots[k], k);
    EmissionTotal(hash, bucket, |bucket|, space, entries, slots, h, k, p);
    assert bucket[..|bucket|] == bucket;
  }

  lemma SlotsApart(hash: Key -> nat, m: Index, space: seq<Entry>, entries: nat, slots: map<Key, nat>, key: Key)
    requires Refines(hash, m, space, entries, slots) && key in slots
    ensures forall k :: k in slots && k != key ==> slots[k] != slots[key]
  {
    forall k | k in slots && k != key
      ensures slots[k] != slots[key]
    {
      assert SlotOk(hash, m, space, entries, slots[k], k) && SlotOk(hash, m, space, entries, slots[key], key);
    }
  }

  lemma InsertGrows(hash: Key -> nat, m: Index, space: seq<Entry>, entries: nat, slots: map<Key, nat>, e: Entry)
    requires Refines(hash, m, space, entries, slots) && e.key !in slots && entries < |space|
    ensures Grows(m, space, slots, Inserted(m, hash(e.key), entries), space[entries := e], slots[e.key := entries])
    ensures forall k :: k in slots ==> slots[k] != entries
  {
    forall h, j | h in m && 0 <= j < |m[h]| && m[h][j] < |space|
      ensures m[h][j] != entries
    {
      assert BucketOk(hash, m[h], space, entries, slots, h);
    }
    forall k | k in slots
      ensures slots[k] != entries
    {
      assert SlotOk(hash, m, space, entries, slots[k], k);
    }
  }

  // ----- a full map -----

  /** What is hashed: the fields one after another, with nothing between them. */
  function Hashed(k: Key): string {
    k.transactionType + k.transactionName + k.spanType + k.spanSubtype
  }

  /** So different keys have the same hash, whatever the hash function. */
  lemma KeysCollide(hash: Key -> nat, f: string -> nat, spanType: string, spanSubtype: string)
    requires forall k :: hash(k) == f(Hashed(k))
    ensures hash(Key("ab", "c", spanType, spanSubtype)) == hash(Key("a", "bc", spanType, spanSubtype))
    ensures Key("ab", "c", spanType, spanSubtype) != Key("a", "bc", spanType, spanSubtype)
  {
    assert "ab" + "c" == "a" + "bc";
    assert |"ab"| != |"a"|;
  }

  /** The scan without a lock does not find a new key. */
  method FindNothing(b: BreakdownMetrics, e: Entry)
    requires b.Valid() && !b.panicked && |b.threads| == 1 && b.threads[0].Out?
    requires e.key !in b.activeSlots && e.timing.Proper()
    modifies b`threads, b`accepted
    ensures b.Valid() && |b.threads| == 1 && b.threads[0].Locking? && b.threads[0].e == e && b.threads[0].todo == []
    ensures b.accepted == old(b.accepted)
  {
    b.Enter(0, [e]);
    b.Lookup(0);
    b.Scan(0);
    assert ThreadOk(b.hash, b.threads[0], b.active.m, b.active.space, b.activeSlots);
  }

  /** A transaction with one record, of a new key, alone in the pair of maps. */
  method RecordNew(b: BreakdownMetrics, e: Entry)
    requires b.Valid() && !b.panicked && |b.threads| == 1 && b.threads[0].Out?
    requires e.key !in b.activeSlots && e.timing.Proper()
    modifies b
    ensures b.Valid() && |b.threads| == 1 && b.gathering == old(b.gathering)
    ensures old(b.active.entries) < BREAKDOWN_METRICS_LIMIT ==>
              && !b.panicked && b.threads[0].Out? && b.active.entries == old(b.active.entries) + 1
              && b.activeSlots.Keys == old(b.activeSlots).Keys + {e.key}
    ensures b.panicked ==> b.threads[0].Locking? && b.threads[0].e == e
    ensures old(b.active.entries) >= BREAKDOWN_METRICS_LIMIT ==>
              && (b.panicked <==> old(b.hash(e.key) in b.active.m))
              && b.active.entries == old(b.active.entries) && b.activeSlots == old(b.activeSlots)
    ensures b.accepted == old(b.accepted) + if old(b.active.entries) < BREAKDOWN_METRICS_LIMIT then [e] else []
  {
    hide Refines, ThreadsOk, Balanced, Grows;
    FindNothing(b, e);
    b.Insert(0);
    if b.threads[0] == Ready([]) {
      b.Leave(0);
    }
  }

  /** The n-th of infinitely many keys under which transactions are recorded. */
  function NumberedKey(n: nat): Key {
    Key(seq(n, _ => 'x'), "", "app", "")
  }

  /** A record that a transaction makes for itself. */
  predicate OfTransaction(e: Entry) {
    e.key.spanType == "app" && e.key.spanSubtype == "" && e.timing == Timing(1, 1)
  }

  /** For any two keys with the same hash there is a run that ends beyond the array: it fills the
      map, with one of them and the keys of transactions, and then records the other. */
  method FullMapPanics(hash: Key -> nat, k: Key, collision: Key) returns (b: BreakdownMetrics)
    requires hash(k) == hash(collision) && k != collision
    ensures fresh(b) && b.Valid() && b.hash == hash && b.panicked
    ensures b.active.entries == BREAKDOWN_METRICS_LIMIT && collision !in b.activeSlots
    ensures |b.threads| == 1 && b.threads[0].Locking? && b.threads[0].e == Entry(collision, Timing(1, 1))
    ensures forall e :: e in b.accepted ==> e == Entry(k, Timing(1, 1)) || OfTransaction(e)
  {
    b := new BreakdownMetrics(hash, 1);
    var base := |k.transactionType| + |collision.transactionType| + 1;
    RecordNew(b, Entry(k, Timing(1, 1)));
    for i := 1 to BREAKDOWN_METRICS_LIMIT
      invariant b.Valid() && !b.panicked && |b.threads| == 1 && b.threads[0].Out?
      invariant b.active.entries == i && k in b.activeSlots && collision !in b.activeSlots
      invariant forall j :: j in b.activeSlots ==> |j.transactionType| < base + i
      invariant forall e :: e in b.accepted ==> e == Entry(k, Timing(1, 1)) || OfTransaction(e)
    {
      RecordNew(b, Entry(NumberedKey(base + i), Timing(1, 1)));
    }
    SlotsIndexed(hash, b.active.m, b.active.space, b.active.entries, b.activeSlots);
    RecordNew(b, Entry(collision, Timing(1, 1)));
  }

  /** Whatever the hash function, transactions alone lead there: 1000 of different names, one of
      them of type "ab" and name "c", and then one of type "a" and name "bc". */
  method TransactionsPanic(hash: Key -> nat, f: string -> nat) returns (b: BreakdownMetrics)
    requires forall k :: hash(k) == f(Hashed(k))
    ensures fresh(b) && b.Valid() && b.hash == hash && b.panicked
    ensures |b.threads| == 1 && b.threads[0].Locking? && OfTransaction(b.threads[0].e)
    ensures forall e :: e in b.accepted ==> OfTransaction(e)
  {
    KeysCollide(hash, f, "app", "");
    b := FullMapPanics(hash, Key("ab", "c", "app", ""), Key("a", "bc", "app", ""));
  }
}
