/** The metric sets of one gathering (metrics.go), kept sorted by their labels and found by
    a binary search that remembers its comparisons. */
module MetricOrder {

  datatype Label = Label(name: string, value: string)

  // ----- the order of labels -----

  /** strings.Compare */
  function CompareStrings(a: string, b: string): int {
    if a == [] then (if b == [] then 0 else -1)
    else if b == [] then 1
    else if a[0] < b[0] then -1
    else if a[0] > b[0] then 1
    else CompareStrings(a[1..], b[1..])
  }

  function CompareLabel(a: Label, b: Label): int {
    if CompareStrings(a.name, b.name) != 0 then CompareStrings(a.name, b.name) else CompareStrings(a.value, b.value)
  }

  /** The lexicographic order: the first difference decides, and else the length. */
  function Compare(a: seq<Label>, b: seq<Label>): int {
    if a == [] then (if b == [] then 0 else -1)
    else if b == [] then 1
    else if CompareLabel(a[0], b[0]) != 0 then CompareLabel(a[0], b[0])
    else Compare(a[1..], b[1..])
  }

  lemma {:induction false} StringsOpposite(a: string, b: string)
    ensures CompareStrings(a, b) == -CompareStrings(b, a) && -1 <= CompareStrings(a, b) <= 1
    ensures CompareStrings(a, b) == 0 <==> a == b
  {
    if a != [] && b != [] {
      StringsOpposite(a[1..], b[1..]);
      assert a == [a[0]] + a[1..] && b == [b[0]] + b[1..];
    }
  }

  lemma {:induction false} StringsTransitive(a: string, b: string, c: string)
    requires CompareStrings(a, b) <= 0 && CompareStrings(b, c) <= 0
    ensures CompareStrings(a, c) <= 0
  {
    if a != [] && b != [] && c != [] && a[0] == b[0] == c[0] {
      StringsTransitive(a[1..], b[1..], c[1..]);
    }
  }

  lemma LabelOrder(a: Label, b: Label, c: Label)
    ensures CompareLabel(a, b) == -CompareLabel(b, a) && (CompareLabel(a, b) == 0 <==> a == b)
    ensures CompareLabel(a, b) <= 0 && CompareLabel(b, c) <= 0 ==> CompareLabel(a, c) <= 0
  {
    StringsOpposite(a.name, b.name);
    StringsOpposite(a.value, b.value);
    StringsOpposite(b.name, c.name);
    StringsOpposite(a.name, c.name);
    if CompareLabel(a, b) <= 0 && CompareLabel(b, c) <= 0 {
      StringsTransitive(a.name, b.name, c.name);
      if a.name == b.name == c.name {
        StringsTransitive(a.value, b.value, c.value);
      }
    }
  }

  /** A total order: opposite when turned round, and zero for equals only. */
  lemma {:induction false} Opposite(a: seq<Label>, b: seq<Label>)
    ensures Compare(a, b) == -Compare(b, a)
    ensures Compare(a, b) == 0 <==> a == b
  {
    if a != [] && b != [] {
      LabelOrder(a[0], b[0], b[0]);
      Opposite(a[1..], b[1..]);
      assert a == [a[0]] + a[1..] && b == [b[0]] + b[1..];
    }
  }

  /** And transitive. */
  lemma {:induction false} Transitive(a: seq<Label>, b: seq<Label>, c: seq<Label>)
    requires Compare(a, b) <= 0 && Compare(b, c) <= 0
    ensures Compare(a, c) <= 0
  {
    if a != [] && b != [] && c != [] {
      LabelOrder(a[0], b[0], c[0]);
      LabelOrder(b[0], c[0], a[0]);
      LabelOrder(a[0], c[0], b[0]);
      if a[0] == b[0] == c[0] {
        Transitive(a[1..], b[1..], c[1..]);
      }
    }
  }

  lemma Before(a: seq<Label>, b: seq<Label>, c: seq<Label>)
    requires Compare(a, b) < 0 && Compare(b, c) <= 0
    ensures Compare(a, c) < 0
  {
    Transitive(a, b, c);
    Opposite(a, c);
    Opposite(a, b);
  }

  // ----- metric sets -----

  datatype Metric = Metric(value: string)

  datatype MetricSet = MetricSet(labels: seq<Label>, samples: map<string, Metric>)

  ghost predicate Sorted(ms: seq<MetricSet>) {
    forall i, j :: 0 <= i < j < |ms| ==> Compare(ms[i].labels, ms[j].labels) < 0
  }

  /** What was recorded: a metric under labels and a name. */
  ghost predicate Holds(ms: seq<MetricSet>, labels: seq<Label>, name: string, metric: Metric) {
    exists i :: 0 <= i < |ms| && Has(ms[i], labels, name, metric)
  }

  predicate Has(m: MetricSet, labels: seq<Label>, name: string, metric: Metric) {
    m.labels == labels && name in m.samples && m.samples[name] == metric
  }

  /** Where labels belong: all sets before come before, and those from there on do not. */
  ghost predicate Belongs(ms: seq<MetricSet>, labels: seq<Label>, i: int) {
    && 0 <= i <= |ms|
    && (forall k :: 0 <= k < i ==> Compare(ms[k].labels, labels) < 0)
    && (forall k :: i <= k < |ms| ==> Compare(ms[k].labels, labels) >= 0)
  }

  /** The sets after the metric was added where its labels belong. */
  function Added(ms: seq<MetricSet>, labels: seq<Label>, name: string, metric: Metric, i: nat): seq<MetricSet>
    requires i <= |ms|
  {
    if i < |ms| && ms[i].labels == labels then ms[i := MetricSet(labels, ms[i].samples[name := metric])]
    else ms[..i] + [MetricSet(labels, map[name := metric])] + ms[i..]
  }

  lemma AddedSorted(ms: seq<MetricSet>, labels: seq<Label>, name: string, metric: Metric, i: nat)
    requires Sorted(ms) && Belongs(ms, labels, i)
    ensures Sorted(Added(ms, labels, name, metric, i))
  {
    var ms' := Added(ms, labels, name, metric, i);
    if !(i < |ms| && ms[i].labels == labels) {
      forall j, k | 0 <= j < k < |ms'|
        ensures Compare(ms'[j].labels, ms'[k].labels) < 0
      {
        if j == i {
          Opposite(ms[k - 1].labels, labels);
          if k - 1 > i {
            Opposite(ms[i].labels, labels);
            Opposite(ms[i].labels, ms[k - 1].labels);
          }
        }
      }
    }
  }

  lemma UpdatedHolds(ms: seq<MetricSet>, labels: seq<Label>, name: string, metric: Metric, i: nat,
                     l: seq<Label>, n: string, v: Metric)
    requires Sorted(ms) && Belongs(ms, labels, i) && i < |ms| && ms[i].labels == labels
    ensures Holds(Added(ms, labels, name, metric, i), l, n, v) <==>
            if l == labels && n == name then v == metric else Holds(ms, l, n, v)
  {
    var ms' := Added(ms, labels, name, metric, i);
    OnlyThere(ms, labels, i);
    assert ms'[i] == MetricSet(labels, ms[i].samples[name := metric]);
    assert Has(ms'[i], labels, name, metric);
    if Holds(ms, l, n, v) && !(l == labels && n == name) {
      var k :| 0 <= k < |ms| && Has(ms[k], l, n, v);
      assert Has(ms'[k], l, n, v);
    }
    if Holds(ms', l, n, v) {
      var k :| 0 <= k < |ms'| && Has(ms'[k], l, n, v);
      assert k != i ==> ms'[k] == ms[k];
      assert Has(ms[k], l, n, v) || (k == i && n == name);
    }
  }

  lemma InsertedHolds(ms: seq<MetricSet>, labels: seq<Label>, name: string, metric: Metric, i: nat,
                      l: seq<Label>, n: string, v: Metric)
    requires Sorted(ms) && Belongs(ms, labels, i) && !(i < |ms| && ms[i].labels == labels)
    ensures Holds(Added(ms, labels, name, metric, i), l, n, v) <==>
            if l == labels && n == name then v == metric else Holds(ms, l, n, v)
  {
    var ms' := Added(ms, labels, name, metric, i);
    var x := MetricSet(labels, map[name := metric]);
    OnlyThere(ms, labels, i);
    Inserted(ms, x, i, i);
    assert Has(ms'[i], labels, name, metric);
    if Holds(ms, l, n, v) {
      var k :| 0 <= k < |ms| && Has(ms[k], l, n, v);
      Inserted(ms, x, i, if k < i then k else k + 1);
      assert Has(ms'[if k < i then k else k + 1], l, n, v);
    }
    if Holds(ms', l, n, v) {
      var k :| 0 <= k < |ms'| && Has(ms'[k], l, n, v);
      Inserted(ms, x, i, k);
      assert k != i ==> Has(ms[if k < i then k else k - 1], l, n, v);
    }
  }

  lemma Inserted(ms: seq<MetricSet>, x: MetricSet, i: nat, k: nat)
    requires i <= |ms| && k <= |ms|
    ensures (ms[..i] + [x] + ms[i..])[k] == if k < i then ms[k] else if k == i then x else ms[k - 1]
  {
  }

  /** The metric is the one recorded under its labels and name, and nothing else changes. */
  lemma AddedHolds(ms: seq<MetricSet>, labels: seq<Label>, name: string, metric: Metric, i: nat,
                   l: seq<Label>, n: string, v: Metric)
    requires Sorted(ms) && Belongs(ms, labels, i)
    ensures Holds(Added(ms, labels, name, metric, i), l, n, v) <==>
            if l == labels && n == name then v == metric else Holds(ms, l, n, v)
  {
    if i < |ms| && ms[i].labels == labels {
      UpdatedHolds(ms, labels, name, metric, i, l, n, v);
    } else {
      InsertedHolds(ms, labels, name, metric, i, l, n, v);
    }
  }

  lemma OnlyThere(ms: seq<MetricSet>, labels: seq<Label>, i: nat)
    requires Sorted(ms) && Belongs(ms, labels, i)
    ensures forall k :: 0 <= k < |ms| && ms[k].labels == labels ==> k == i
  {
    Opposite(labels, labels);
    assert forall k :: i < k < |ms| ==> Compare(ms[i].labels, ms[k].labels) < 0;
  }
}

module MetricSets {
  import opened MetricOrder

  /** compareLabels, as a loop. */
  method CompareLabels(a: seq<Label>, b: seq<Label>) returns (d: int)
    ensures d == Compare(a, b)
  {
    var na, nb := |a|, |b|;
    var n := if na > nb then nb else na;
    for i := 0 to n
      invariant Compare(a, b) == Compare(a[i..], b[i..])
    {
      assert a[i..][1..] == a[i + 1..] && b[i..][1..] == b[i + 1..];
      d := CompareStrings(a[i].name, b[i].name);
      if d == 0 {
        d := CompareStrings(a[i].value, b[i].value);
      }
      if d != 0 {
        return;
      }
    }
    if na < nb {
      return -1;
    } else if na > nb {
      return 1;
    }
    return 0;
  }

  class Metrics {
    var metrics: seq<MetricSet>

    ghost predicate Valid()
      reads this
    {
      Sorted(metrics)
    }

    constructor ()
      ensures Valid() && metrics == []
    {
      metrics := [];
    }

    /** sort.Search with the comparisons remembered in results: where the index is in range
        its result is the comparison there, and not a zero that was never written. */
    method Search(labels: seq<Label>) returns (i: int, results: seq<int>)
      requires Valid()
      ensures Belongs(metrics, labels, i) && |results| == |metrics|
      ensures i < |metrics| ==> results[i] == Compare(metrics[i].labels, labels)
    {
      results := seq(|metrics|, _ => 0);
      i := 0;
      var j := |metrics|;
      while i < j
        invariant 0 <= i <= j <= |metrics| == |results|
        invariant forall k :: 0 <= k < i ==> Compare(metrics[k].labels, labels) < 0
        invariant forall k :: j <= k < |metrics| ==> Compare(metrics[k].labels, labels) >= 0
        invariant j < |metrics| ==> results[j] == Compare(metrics[j].labels, labels)
      {
        var h := (i + j) / 2;
        var d := CompareLabels(metrics[h].labels, labels);
        results := results[h := d];
        if !(results[h] >= 0) {
          forall k | 0 <= k < h
            ensures Compare(metrics[k].labels, labels) < 0
          {
            Before(metrics[k].labels, metrics[h].labels, labels);
          }
          i := h + 1;
        } else {
          forall k | h < k < |metrics|
            ensures Compare(metrics[k].labels, labels) >= 0
          {
            Opposite(metrics[h].labels, labels);
            Opposite(metrics[k].labels, labels);
            Opposite(metrics[h].labels, metrics[k].labels);
            if Compare(metrics[k].labels, labels) < 0 {
              Before(metrics[h].labels, metrics[k].labels, labels);
            }
          }
          j := h;
        }
      }
    }

    /** addMetric: the last metric added under labels and a name is the one recorded, sets
        stay sorted, and no two have the same labels. */
    method AddMetric(name: string, labels: seq<Label>, metric: Metric, disabled: bool, finite: bool)
      requires Valid()
      modifies this
      ensures Valid()
      ensures disabled || !finite ==> metrics == old(metrics)
      ensures !disabled && finite ==>
                forall l, n, v :: Holds(metrics, l, n, v) <==>
                  if l == labels && n == name then v == metric else Holds(old(metrics), l, n, v)
    {
      if disabled {
        return;
      }
      if !finite {
        return;
      }
      var i, results := Search(labels);
      ghost var was := metrics;
      AddedSorted(was, labels, name, metric, i);
      forall l, n, v
        ensures Holds(Added(was, labels, name, metric, i), l, n, v) <==>
                if l == labels && n == name then v == metric else Holds(was, l, n, v)
      {
        AddedHolds(was, labels, name, metric, i, l, n, v);
      }
      if i < |results| {
        Opposite(metrics[i].labels, labels);
      }
      var entry := MetricSet(labels, map[]);
      if i < |results| && results[i] == 0 {
        entry := metrics[i];
      } else if i == |results| {
        metrics := metrics + [entry];
      } else {
        metrics := metrics[..i] + [entry] + metrics[i..];
      }
      metrics := metrics[i := MetricSet(labels, entry.samples[name := metric])];
      assert metrics == Added(was, labels, name, metric, i);
    }
  }
}
