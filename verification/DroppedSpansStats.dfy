/** The bounded statistics of dropped exit spans (transaction.go, droppedSpanTimingsMap). */
module DroppedSpansStats {

  const MAX_DROPPED_SPAN_STATS: nat := 128

  datatype Key = Key(targetType: string, targetName: string, destination: string, outcome: string)

  datatype Timing = Timing(count: int, duration: int)

  /** One call of add. */
  datatype Drop = Drop(key: Key, count: int, duration: int)

  function Add(m: map<Key, Timing>, d: Drop): map<Key, Timing> {
    if d.key in m || MAX_DROPPED_SPAN_STATS > |m| then
      var timing := if d.key in m then m[d.key] else Timing(0, 0);
      m[d.key := Timing(timing.count + d.count, timing.duration + d.duration)]
    else m
  }

  /** The totals over a run of calls for one key. */
  function Total(log: seq<Drop>, k: Key): Timing {
    if log == [] then Timing(0, 0)
    else
      var t, d := Total(log[..|log| - 1], k), log[|log| - 1];
      if d.key == k then Timing(t.count + d.count, t.duration + d.duration) else t
  }

  ghost function KeysOf(log: seq<Drop>): set<Key> {
    if log == [] then {} else KeysOf(log[..|log| - 1]) + {log[|log| - 1].key}
  }

  /** m is a faithful account of the calls in log: at most 128 keys are admitted; for an
      admitted key the totals are over every call; and keys are turned away only once
      128 others are in. */
  ghost predicate Faithful(m: map<Key, Timing>, log: seq<Drop>) {
    && |m| <= MAX_DROPPED_SPAN_STATS
    && m.Keys <= KeysOf(log)
    && (|m| < MAX_DROPPED_SPAN_STATS ==> m.Keys == KeysOf(log))
    && forall k :: k in m ==> m[k] == Total(log, k)
  }

  lemma {:induction false} TotalUnseen(log: seq<Drop>, k: Key)
    requires k !in KeysOf(log)
    ensures Total(log, k) == Timing(0, 0)
  {
    if log != [] {
      TotalUnseen(log[..|log| - 1], k);
    }
  }

  lemma KeysOfAppend(log: seq<Drop>, d: Drop)
    ensures KeysOf(log + [d]) == KeysOf(log) + {d.key}
  {
    assert (log + [d])[..|log|] == log;
  }

  lemma TotalAppend(log: seq<Drop>, d: Drop, k: Key)
    ensures var t := Total(log, k);
            Total(log + [d], k) == if d.key == k then Timing(t.count + d.count, t.duration + d.duration) else t
  {
    assert (log + [d])[..|log|] == log;
  }

  lemma AddSize(m: map<Key, Timing>, d: Drop)
    requires |m| <= MAX_DROPPED_SPAN_STATS
    ensures |Add(m, d)| == if d.key in m || |m| == MAX_DROPPED_SPAN_STATS then |m| else |m| + 1
    ensures Add(m, d).Keys == if d.key in m || |m| == MAX_DROPPED_SPAN_STATS then m.Keys else m.Keys + {d.key}
  {
    var m' := Add(m, d);
    assert m'.Keys == if d.key in m || |m| == MAX_DROPPED_SPAN_STATS then m.Keys else m.Keys + {d.key};
    assert |m| == |m.Keys| && |m'| == |m'.Keys|;
  }

  /** Every call keeps the account faithful.  In particular a key turned away once is
      never admitted later, or its total would lack that call. */
  lemma AddKeepsFaithful(m: map<Key, Timing>, log: seq<Drop>, d: Drop)
    requires Faithful(m, log)
    ensures Faithful(Add(m, d), log + [d])
    ensures m.Keys <= Add(m, d).Keys
  {
    KeysOfAppend(log, d);
    AddSize(m, d);
    if d.key !in m && |m| < MAX_DROPPED_SPAN_STATS {
      TotalUnseen(log, d.key);
    }
    forall k | k in Add(m, d)
      ensures Add(m, d)[k] == Total(log + [d], k)
    {
      TotalAppend(log, d, k);
    }
  }
}
