/** Errors and their causes (error.go), and how their stack traces go into the model
    (modelwriter.go).

    An error is a number, and its methods are what `errors` says of it: the value of its
    pointer if its kind has one, and its causes, with those that details functions added.  The
    graph of causes may be cyclic, or infinite. */
module ErrorTree {
  import opened Basics

  datatype Frame = Frame(name: string, library: bool)

  datatype Error = Error(pointer: Option<nat>, message: string, causes: seq<nat>, frames: seq<Frame>)

  type Errors = nat -> Error

  const MAX_ERROR_TREE_NODES := 50

  datatype ExceptionData = ExceptionData(err: nat, message: string, stacktrace: seq<Frame>, cause: seq<ExceptionData>)

  // ----- trees -----

  /** The errors of a tree, each before its causes. */
  function Nodes(t: ExceptionData): seq<nat> {
    [t.err] + NodesTo(t.cause, |t.cause|)
  }

  function NodesTo(ts: seq<ExceptionData>, n: nat): seq<nat>
    requires n <= |ts|
    decreases ts, n
  {
    if n == 0 then [] else NodesTo(ts, n - 1) + Nodes(ts[n - 1])
  }

  lemma {:induction false} NodesSame(a: seq<ExceptionData>, b: seq<ExceptionData>, n: nat)
    requires n <= |a| && n <= |b| && forall i :: 0 <= i < n ==> a[i] == b[i]
    ensures NodesTo(a, n) == NodesTo(b, n)
  {
    if n > 0 {
      NodesSame(a, b, n - 1);
      assert a[n - 1] == b[n - 1];
    }
  }

  lemma NodesAppend(ts: seq<ExceptionData>, t: ExceptionData)
    ensures NodesTo(ts + [t], |ts| + 1) == NodesTo(ts, |ts|) + Nodes(t)
  {
    NodesSame(ts + [t], ts, |ts|);
  }

  function Roots(ts: seq<ExceptionData>): seq<nat> {
    seq(|ts|, i requires 0 <= i < |ts| => ts[i].err)
  }

  predicate Subsequence(a: seq<nat>, b: seq<nat>) {
    if a == [] then true
    else if b == [] then false
    else if a[|a| - 1] == b[|b| - 1] && Subsequence(a[..|a| - 1], b[..|b| - 1]) then true
    else Subsequence(a, b[..|b| - 1])
  }

  lemma SubsequenceSteps(a: seq<nat>, b: seq<nat>, x: nat)
    requires Subsequence(a, b)
    ensures Subsequence(a, b + [x]) && Subsequence(a + [x], b + [x])
  {
    assert (b + [x])[..|b|] == b && (a + [x])[..|a|] == a;
  }

  /** Each node of the tree says what its error says, and its children are some of the
      error's causes in their order. */
  ghost predicate Faithful(errors: Errors, t: ExceptionData) {
    && t.message == (if errors(t.err).message == "" then "[EMPTY]" else errors(t.err).message)
    && t.stacktrace == errors(t.err).frames
    && Subsequence(Roots(t.cause), errors(t.err).causes)
    && forall c :: c in t.cause ==> Faithful(errors, c)
  }

  // ----- pointers -----

  /** The pointers of some errors. */
  ghost function Pointers(errors: Errors, ns: seq<nat>): set<nat> {
    set n | n in ns && errors(n).pointer.Some? :: errors(n).pointer.value
  }

  /** No pointer occurs twice. */
  ghost predicate Once(errors: Errors, ns: seq<nat>) {
    forall i, j :: 0 <= i < j < |ns| && errors(ns[i]).pointer.Some? ==> errors(ns[i]).pointer != errors(ns[j]).pointer
  }

  lemma PointersAppend(errors: Errors, a: seq<nat>, b: seq<nat>)
    ensures Pointers(errors, a + b) == Pointers(errors, a) + Pointers(errors, b)
    ensures Once(errors, a) && Once(errors, b) && Pointers(errors, a) !! Pointers(errors, b) ==> Once(errors, a + b)
  {
    if Once(errors, a) && Once(errors, b) && Pointers(errors, a) !! Pointers(errors, b) {
      var ns := a + b;
      forall i, j | 0 <= i < j < |ns| && errors(ns[i]).pointer.Some?
        ensures errors(ns[i]).pointer != errors(ns[j]).pointer
      {
        if i < |a| <= j && errors(ns[j]).pointer.Some? {
          assert ns[i] in a && ns[j] in b;
          assert errors(ns[i]).pointer.value in Pointers(errors, a);
          assert errors(ns[j]).pointer.value in Pointers(errors, b);
        }
      }
    }
  }

  /** Every cause of every node is a child, or its pointer was visited. */
  ghost predicate Closed(errors: Errors, t: ExceptionData, visited: set<nat>) {
    && (forall c :: c in errors(t.err).causes ==> c in Roots(t.cause) || Visited(errors, c, visited))
    && forall c :: c in t.cause ==> Closed(errors, c, visited)
  }

  ghost predicate Visited(errors: Errors, err: nat, visited: set<nat>) {
    errors(err).pointer.Some? && errors(err).pointer.value in visited
  }

  lemma {:induction false} ClosedStays(errors: Errors, t: ExceptionData, visited: set<nat>, visited': set<nat>)
    requires Closed(errors, t, visited) && visited <= visited'
    ensures Closed(errors, t, visited')
  {
    forall c | c in t.cause
      ensures Closed(errors, c, visited')
    {
      ClosedStays(errors, c, visited, visited');
    }
  }

  /** What a call of init has made of the causes so far: the trees ts, from `before` to
      `after` in the set of visited pointers. */
  ghost predicate Grown(errors: Errors, ns: seq<nat>, before: set<nat>, after: set<nat>) {
    Once(errors, ns) && Pointers(errors, ns) !! before && after == before + Pointers(errors, ns)
  }

  lemma GrownFurther(errors: Errors, a: seq<nat>, b: seq<nat>, s0: set<nat>, s1: set<nat>, s2: set<nat>)
    requires Grown(errors, a, s0, s1) && Grown(errors, b, s1, s2)
    ensures Grown(errors, a + b, s0, s2)
  {
    PointersAppend(errors, a, b);
  }

  /** How many causes these errors have, taken together. */
  function CauseCount(errors: Errors, ns: seq<nat>): nat {
    if ns == [] then 0 else |errors(ns[0]).causes| + CauseCount(errors, ns[1..])
  }

  lemma {:induction false} CauseCountAppend(errors: Errors, a: seq<nat>, b: seq<nat>)
    ensures CauseCount(errors, a + b) == CauseCount(errors, a) + CauseCount(errors, b)
  {
    if a == [] {
      assert a + b == b;
    } else {
      assert (a + b)[1..] == a[1..] + b;
      CauseCountAppend(errors, a[1..], b);
    }
  }

  /** How many of the first n causes have a pointer that was visited. */
  function VisitedTo(errors: Errors, causes: seq<nat>, n: nat, visited: set<nat>): nat
    requires n <= |causes|
  {
    if n == 0 then 0
    else VisitedTo(errors, causes, n - 1, visited) +
         if errors(causes[n - 1]).pointer.Some? && errors(causes[n - 1]).pointer.value in visited then 1 else 0
  }

  /** And how many of all causes of these errors. */
  function VisitedCount(errors: Errors, ns: seq<nat>, visited: set<nat>): nat {
    if ns == [] then 0
    else var causes := errors(ns[0]).causes; VisitedTo(errors, causes, |causes|, visited) + VisitedCount(errors, ns[1..], visited)
  }

  lemma {:induction false} VisitedToGrows(errors: Errors, causes: seq<nat>, n: nat, v: set<nat>, v': set<nat>)
    requires n <= |causes| && v <= v'
    ensures VisitedTo(errors, causes, n, v) <= VisitedTo(errors, causes, n, v')
  {
    if n > 0 {
      VisitedToGrows(errors, causes, n - 1, v, v');
    }
  }

  lemma {:induction false} VisitedGrows(errors: Errors, ns: seq<nat>, v: set<nat>, v': set<nat>)
    requires v <= v'
    ensures VisitedCount(errors, ns, v) <= VisitedCount(errors, ns, v')
  {
    if ns != [] {
      VisitedToGrows(errors, errors(ns[0]).causes, |errors(ns[0]).causes|, v, v');
      VisitedGrows(errors, ns[1..], v, v');
    }
  }

  lemma {:induction false} VisitedAppend(errors: Errors, a: seq<nat>, b: seq<nat>, v: set<nat>)
    ensures VisitedCount(errors, a + b, v) == VisitedCount(errors, a, v) + VisitedCount(errors, b, v)
  {
    if a == [] {
      assert a + b == b;
    } else {
      assert (a + b)[1..] == a[1..] + b;
      VisitedAppend(errors, a[1..], b, v);
    }
  }

  /** The errors looked at are no more than the nodes, and the causes whose pointer was visited:
      those of the first i causes of err, and those of the nodes of ts. */
  ghost predicate LookedAt(errors: Errors, err: nat, i: nat, ns: seq<nat>, v: set<nat>, count: int) {
    && i <= |errors(err).causes|
    && count <= |ns| + VisitedTo(errors, errors(err).causes, i, v) + VisitedCount(errors, ns, v)
  }

  lemma NothingLookedAt(errors: Errors, err: nat, v: set<nat>)
    ensures LookedAt(errors, err, 0, [], v, 0) && NodesTo([], 0) == [] && CauseCount(errors, []) == 0
  {
  }

  lemma LookedAtTree(errors: Errors, err: nat, i: nat, ns: seq<nat>, v: set<nat>, count: int,
                     more: seq<nat>, v': set<nat>, count': int)
    requires LookedAt(errors, err, i, ns, v, count) && i < |errors(err).causes| && v <= v'
    requires count' - count <= |more| + VisitedCount(errors, more, v')
    ensures LookedAt(errors, err, i + 1, ns + more, v', count')
  {
    VisitedToGrows(errors, errors(err).causes, i, v, v');
    VisitedGrows(errors, ns, v, v');
    VisitedAppend(errors, ns, more, v');
  }

  lemma LookedAtVisited(errors: Errors, err: nat, i: nat, ns: seq<nat>, v: set<nat>, count: int)
    requires LookedAt(errors, err, i, ns, v, count) && i < |errors(err).causes| && Visited(errors, errors(err).causes[i], v)
    ensures LookedAt(errors, err, i + 1, ns, v, count + 1)
  {
  }

  lemma {:induction false} VisitedToMore(errors: Errors, causes: seq<nat>, i: nat, n: nat, v: set<nat>)
    requires i <= n <= |causes|
    ensures VisitedTo(errors, causes, i, v) <= VisitedTo(errors, causes, n, v)
  {
    if i < n {
      VisitedToMore(errors, causes, i, n - 1, v);
    }
  }

  lemma LookedAtAll(errors: Errors, err: nat, i: nat, ns: seq<nat>, v: set<nat>, count: int)
    requires LookedAt(errors, err, i, ns, v, count)
    ensures i <= |errors(err).causes| && 1 + count <= |[err] + ns| + VisitedCount(errors, [err] + ns, v)
  {
    VisitedToMore(errors, errors(err).causes, i, |errors(err).causes|, v);
    assert ([err] + ns)[1..] == ns;
  }

  // ----- the loop over the causes -----

  lemma {:induction false} SubsequenceOfMore(a: seq<nat>, b: seq<nat>, n: nat)
    requires n <= |b| && Subsequence(a, b[..n])
    ensures Subsequence(a, b)
    decreases |b| - n
  {
    if n == |b| {
      assert b[..n] == b;
    } else {
      SubsequenceSteps(a, b[..n], b[n]);
      assert b[..n] + [b[n]] == b[..n + 1];
      SubsequenceOfMore(a, b, n + 1);
    }
  }

  /** The trees ts of the first i causes, with the pointers visited from v0 to v. */
  ghost predicate Forest(errors: Errors, err: nat, i: nat, ts: seq<ExceptionData>, v0: set<nat>, v: set<nat>) {
    && i <= |errors(err).causes|
    && Subsequence(Roots(ts), errors(err).causes[..i])
    && (forall t :: t in ts ==> Faithful(errors, t))
    && Grown(errors, [err] + NodesTo(ts, |ts|), v0, v)
  }

  /** Nothing of the first i causes was left out that was not visited. */
  ghost predicate NoneLeftOut(errors: Errors, err: nat, i: nat, ts: seq<ExceptionData>, v: set<nat>) {
    && i <= |errors(err).causes|
    && (forall k :: 0 <= k < i ==> errors(err).causes[k] in Roots(ts) || Visited(errors, errors(err).causes[k], v))
    && (forall t :: t in ts ==> Closed(errors, t, v))
  }

  lemma ForestBegins(errors: Errors, err: nat, v0: set<nat>, v: set<nat>)
    requires Grown(errors, [err], v0, v)
    ensures Forest(errors, err, 0, [], v0, v) && NoneLeftOut(errors, err, 0, [], v)
  {
    assert [err] + NodesTo([], 0) == [err];
  }

  lemma ForestSkips(errors: Errors, err: nat, i: nat, ts: seq<ExceptionData>, v0: set<nat>, v: set<nat>)
    requires Forest(errors, err, i, ts, v0, v) && i < |errors(err).causes|
    ensures Forest(errors, err, i + 1, ts, v0, v)
    ensures NoneLeftOut(errors, err, i, ts, v) && Visited(errors, errors(err).causes[i], v) ==>
              NoneLeftOut(errors, err, i + 1, ts, v)
  {
    var causes := errors(err).causes;
    SubsequenceSteps(Roots(ts), causes[..i], causes[i]);
    assert causes[..i + 1] == causes[..i] + [causes[i]];
  }

  lemma ForestGrows(errors: Errors, err: nat, i: nat, ts: seq<ExceptionData>, t: ExceptionData, v0: set<nat>, v: set<nat>, v': set<nat>)
    requires Forest(errors, err, i, ts, v0, v) && i < |errors(err).causes|
    requires t.err == errors(err).causes[i] && Faithful(errors, t) && Grown(errors, Nodes(t), v, v')
    ensures Forest(errors, err, i + 1, ts + [t], v0, v')
    ensures |NodesTo(ts + [t], |ts + [t]|)| == |NodesTo(ts, |ts|)| + |Nodes(t)|
  {
    hide Faithful, Grown;
    var causes := errors(err).causes;
    SubsequenceSteps(Roots(ts), causes[..i], causes[i]);
    assert causes[..i + 1] == causes[..i] + [causes[i]];
    assert Roots(ts + [t]) == Roots(ts) + [causes[i]];
    NodesAppend(ts, t);
    GrownFurther(errors, [err] + NodesTo(ts, |ts|), Nodes(t), v0, v, v');
    assert [err] + NodesTo(ts, |ts|) + Nodes(t) == [err] + (NodesTo(ts, |ts|) + Nodes(t));
  }

  lemma NoneLeftOutStill(errors: Errors, err: nat, i: nat, ts: seq<ExceptionData>, t: ExceptionData, v: set<nat>, v': set<nat>)
    requires NoneLeftOut(errors, err, i, ts, v) && i < |errors(err).causes| && v <= v'
    requires t.err == errors(err).causes[i] && Closed(errors, t, v')
    ensures NoneLeftOut(errors, err, i + 1, ts + [t], v')
  {
    forall c | c in ts + [t]
      ensures Closed(errors, c, v')
    {
      if c in ts {
        ClosedStays(errors, c, v, v');
      }
    }
    assert Roots(ts + [t]) == Roots(ts) + [t.err];
  }

  lemma ForestIsFaithful(errors: Errors, err: nat, i: nat, ts: seq<ExceptionData>, v0: set<nat>, v: set<nat>, data: ExceptionData)
    requires Forest(errors, err, i, ts, v0, v) && data.err == err && data.cause == ts && data.stacktrace == errors(err).frames
    requires data.message == if errors(err).message == "" then "[EMPTY]" else errors(err).message
    ensures Faithful(errors, data) && Grown(errors, Nodes(data), v0, v)
    ensures i == |errors(err).causes| && NoneLeftOut(errors, err, i, ts, v) ==> Closed(errors, data, v)
  {
    SubsequenceOfMore(Roots(ts), errors(err).causes, i);
  }

  /** From error to error along causes. */
  ghost predicate Path(errors: Errors, p: seq<nat>) {
    p != [] && forall i :: 0 <= i < |p| - 1 ==> p[i + 1] in errors(p[i]).causes
  }

  /** Different errors do not share a pointer. */
  ghost predicate PointersIdentify(errors: Errors) {
    forall a, b :: errors(a).pointer.Some? && errors(a).pointer == errors(b).pointer ==> a == b
  }

  /** The tree has every error that can be reached from its root. */
  ghost predicate Whole(errors: Errors, t: ExceptionData) {
    forall p :: Path(errors, p) && p[0] == t.err ==> p[|p| - 1] in Nodes(t)
  }

  /** Where pointers tell the errors apart, a closed tree has all that can be reached. */
  lemma ClosedIsWhole(errors: Errors, t: ExceptionData)
    requires PointersIdentify(errors) && Closed(errors, t, Pointers(errors, Nodes(t)))
    ensures Whole(errors, t)
  {
    forall p | Path(errors, p) && p[0] == t.err
      ensures p[|p| - 1] in Nodes(t)
    {
      ReachedIsIncluded(errors, t, p);
    }
  }

  lemma {:induction false} ReachedIsIncluded(errors: Errors, t: ExceptionData, p: seq<nat>)
    requires PointersIdentify(errors)
    requires Closed(errors, t, Pointers(errors, Nodes(t))) && Path(errors, p) && p[0] == t.err
    ensures p[|p| - 1] in Nodes(t)
    decreases |p|
  {
    if |p| > 1 {
      var q := p[..|p| - 1];
      ReachedIsIncluded(errors, t, q);
      CausesIncluded(errors, t, Pointers(errors, Nodes(t)), p[|p| - 2], p[|p| - 1]);
    }
  }

  /** A cause of a node is a node, or was visited. */
  lemma {:induction false} CausesIncluded(errors: Errors, t: ExceptionData, visited: set<nat>, n: nat, c: nat)
    requires Closed(errors, t, visited) && n in Nodes(t) && c in errors(n).causes
    ensures c in Nodes(t) || Visited(errors, c, visited)
    decreases t
  {
    if n == t.err {
      if c in Roots(t.cause) {
        var k :| 0 <= k < |t.cause| && t.cause[k].err == c;
        InNodes(t.cause, |t.cause|, k, c);
      }
    } else {
      var k := FromNodes(t.cause, |t.cause|, n);
      CausesIncluded(errors, t.cause[k], visited, n, c);
      if c in Nodes(t.cause[k]) {
        InNodes(t.cause, |t.cause|, k, c);
      }
    }
  }

  lemma {:induction false} InNodes(ts: seq<ExceptionData>, n: nat, k: nat, c: nat)
    requires k < n <= |ts| && c in Nodes(ts[k])
    ensures c in NodesTo(ts, n)
  {
    if k < n - 1 {
      InNodes(ts, n - 1, k, c);
    }
  }

  lemma {:induction false} FromNodes(ts: seq<ExceptionData>, n: nat, c: nat) returns (k: nat)
    requires n <= |ts| && c in NodesTo(ts, n)
    ensures k < n && c in Nodes(ts[k])
  {
    if c in Nodes(ts[n - 1]) {
      k := n - 1;
    } else {
      k := FromNodes(ts, n - 1, c);
    }
  }
}

module ErrorBuilder {
  import opened ErrorTree

  class ExceptionDataBuilder {
    const errors: Errors
    var errorCount: nat
    var pointerErrors: set<nat>

    constructor (errors: Errors)
      ensures this.errors == errors && errorCount == 0 && pointerErrors == {}
    {
      this.errors := errors;
      errorCount, pointerErrors := 0, {};
    }

    /** Registers the error, unless its pointer has been visited. */
    method Visit(err: nat) returns (ok: bool)
      modifies this`pointerErrors
      ensures ok == !Visited(errors, err, old(pointerErrors))
      ensures ok ==> Grown(errors, [err], old(pointerErrors), pointerErrors)
      ensures !ok ==> pointerErrors == old(pointerErrors)
    {
      var p := errors(err).pointer;
      if p.Some? {
        if p.value in pointerErrors {
          return false;
        }
        pointerErrors := pointerErrors + {p.value};
      }
      assert Pointers(errors, [err]) == if p.Some? then {p.value} else {} by {
        assert err in [err];
      }
      return true;
    }

    /** The tree of an error: its nodes are new, and no more than the errors counted, which are
        the root and at most all causes of its nodes; and unless the limit was reached, it
        leaves no cause out that was not visited. */
    method Init(err: nat) returns (ok: bool, data: ExceptionData)
      requires errorCount < MAX_ERROR_TREE_NODES
      modifies this
      ensures old(errorCount) < errorCount <= MAX_ERROR_TREE_NODES
      ensures ok == !Visited(errors, err, old(pointerErrors))
      ensures !ok ==> pointerErrors == old(pointerErrors) && errorCount == old(errorCount) + 1
      ensures ok ==>
                && data.err == err && Faithful(errors, data)
                && Grown(errors, Nodes(data), old(pointerErrors), pointerErrors)
                && |Nodes(data)| <= errorCount - old(errorCount) <= 1 + CauseCount(errors, Nodes(data))
                && errorCount - old(errorCount) <= |Nodes(data)| + VisitedCount(errors, Nodes(data), pointerErrors)
      ensures ok && errorCount < MAX_ERROR_TREE_NODES ==> Closed(errors, data, pointerErrors)
      decreases MAX_ERROR_TREE_NODES - errorCount, 0
    {
      hide VisitedCount, LookedAt, Forest, NoneLeftOut, Closed, Faithful;
      ghost var v0 := pointerErrors;
      errorCount := errorCount + 1;
      ok := Visit(err);
      var e := errors(err);
      data := ExceptionData(err, if e.message == "" then "[EMPTY]" else e.message, e.frames, []);
      if !ok {
        return;
      }
      var cause;
      ghost var i;
      cause, i := InitCauses(err, v0);
      data := data.(cause := cause);
      ForestIsFaithful(errors, err, i, cause, v0, pointerErrors, data);
      LookedAtAll(errors, err, i, NodesTo(cause, |cause|), pointerErrors, errorCount - old(errorCount) - 1);
      assert Nodes(data)[1..] == NodesTo(cause, |cause|);
    }

    /** The loop of init over the causes: i of them are looked at before the limit is reached. */
    method InitCauses(err: nat, ghost v0: set<nat>) returns (ts: seq<ExceptionData>, ghost i: nat)
      requires errorCount <= MAX_ERROR_TREE_NODES && Grown(errors, [err], v0, pointerErrors)
      modifies this
      ensures old(errorCount) <= errorCount <= MAX_ERROR_TREE_NODES
      ensures Forest(errors, err, i, ts, v0, pointerErrors)
      ensures |NodesTo(ts, |ts|)| <= errorCount - old(errorCount) <= i + CauseCount(errors, NodesTo(ts, |ts|))
      ensures LookedAt(errors, err, i, NodesTo(ts, |ts|), pointerErrors, errorCount - old(errorCount))
      ensures errorCount < MAX_ERROR_TREE_NODES ==>
                i == |errors(err).causes| && NoneLeftOut(errors, err, i, ts, pointerErrors)
      decreases MAX_ERROR_TREE_NODES - errorCount, 1
    {
      hide Forest, NoneLeftOut, Closed, Faithful, LookedAt, VisitedCount, CauseCount, NodesTo, Visited;
      var causes := errors(err).causes;
      ts, i := [], 0;
      ForestBegins(errors, err, v0, pointerErrors);
      NothingLookedAt(errors, err, pointerErrors);
      var n := 0;
      while n < |causes|
        invariant n == i <= |causes|
        invariant old(errorCount) <= errorCount <= MAX_ERROR_TREE_NODES
        invariant Forest(errors, err, i, ts, v0, pointerErrors)
        invariant |NodesTo(ts, |ts|)| <= errorCount - old(errorCount) <= i + CauseCount(errors, NodesTo(ts, |ts|))
        invariant LookedAt(errors, err, i, NodesTo(ts, |ts|), pointerErrors, errorCount - old(errorCount))
        invariant errorCount < MAX_ERROR_TREE_NODES ==> NoneLeftOut(errors, err, i, ts, pointerErrors)
      {
        if errorCount >= MAX_ERROR_TREE_NODES {
          break;
        }
        ghost var v, ns, count := pointerErrors, NodesTo(ts, |ts|), errorCount - old(errorCount);
        var ok, data := Init(causes[n]);
        if ok {
          ForestGrows(errors, err, i, ts, data, v0, v, pointerErrors);
          NodesAppend(ts, data);
          CauseCountAppend(errors, ns, Nodes(data));
          LookedAtTree(errors, err, i, ns, v, count, Nodes(data), pointerErrors, errorCount - old(errorCount));
          if errorCount < MAX_ERROR_TREE_NODES {
            NoneLeftOutStill(errors, err, i, ts, data, v, pointerErrors);
          }
          ts := ts + [data];
        } else {
          ForestSkips(errors, err, i, ts, v0, v);
          LookedAtVisited(errors, err, i, ns, v, count);
        }
        n, i := n + 1, i + 1;
      }
    }
  }

  /** initException: the tree has at most 50 nodes and no pointer twice.  Unless its nodes have
      49 causes or more, and are 50 or more together with those of their causes that have a
      pointer of a node, no cause was left out but for a pointer in the tree; so if pointers tell
      the errors apart, it has every error that can be reached. */
  method InitException(errors: Errors, err: nat) returns (data: ExceptionData)
    ensures data.err == err && Faithful(errors, data)
    ensures |Nodes(data)| <= MAX_ERROR_TREE_NODES && Once(errors, Nodes(data))
    ensures || 1 + CauseCount(errors, Nodes(data)) < MAX_ERROR_TREE_NODES
            || |Nodes(data)| + VisitedCount(errors, Nodes(data), Pointers(errors, Nodes(data))) < MAX_ERROR_TREE_NODES ==>
              && Closed(errors, data, Pointers(errors, Nodes(data)))
              && (PointersIdentify(errors) ==> Whole(errors, data))
  {
    var b := new ExceptionDataBuilder(errors);
    var ok;
    ok, data := b.Init(err);
    assert b.pointerErrors == Pointers(errors, Nodes(data));
    if PointersIdentify(errors) && Closed(errors, data, Pointers(errors, Nodes(data))) {
      ClosedIsWhole(errors, data);
    }
  }
}

/** How the stack traces of an error go into the model: a first traversal copies all frames
    into one array, and a second one slices them out again. */
module ErrorModel {
  import opened Basics
  import opened ErrorTree
  import opened ErrorBuilder

  /** All frames of a tree, each node's own before those of its causes. */
  function Frames(t: ExceptionData): seq<Frame> {
    t.stacktrace + FramesTo(t.cause, |t.cause|)
  }

  function FramesTo(ts: seq<ExceptionData>, n: nat): seq<Frame>
    requires n <= |ts|
    decreases ts, n
  {
    if n == 0 then [] else FramesTo(ts, n - 1) + Frames(ts[n - 1])
  }

  /** A slice of the array, from `lo` to before `hi`. */
  datatype Slice = Slice(lo: nat, hi: nat)

  datatype Exception = Exception(message: string, stacktrace: Option<Slice>, cause: seq<Exception>)

  ghost predicate IsSlice(s: Option<Slice>, all: seq<Frame>, lo: nat, frames: seq<Frame>) {
    if frames == [] then s == None
    else s == Some(Slice(lo, lo + |frames|)) && lo + |frames| <= |all| && all[lo..lo + |frames|] == frames
  }

  /** The model of a tree whose frames begin at lo in the array: each exception has exactly
      the frames of its own node, and the slices follow each other without a gap. */
  ghost predicate Models(out: Exception, t: ExceptionData, all: seq<Frame>, lo: nat)
    decreases t
  {
    && out.message == t.message
    && IsSlice(out.stacktrace, all, lo, t.stacktrace)
    && |out.cause| == |t.cause|
    && ModelsTo(out.cause, t.cause, |t.cause|, all, lo + |t.stacktrace|)
  }

  /** The same of the first n of the causes. */
  ghost predicate ModelsTo(outs: seq<Exception>, ts: seq<ExceptionData>, n: nat, all: seq<Frame>, lo: nat)
    requires n <= |outs| && n <= |ts|
    decreases ts, n
  {
    n > 0 ==>
      && ModelsTo(outs, ts, n - 1, all, lo)
      && Models(outs[n - 1], ts[n - 1], all, lo + |FramesTo(ts, n - 1)|)
  }

  lemma {:induction false} ModelsSame(outs: seq<Exception>, outs': seq<Exception>, ts: seq<ExceptionData>, n: nat, all: seq<Frame>, lo: nat)
    requires n <= |outs| <= |outs'| && n <= |ts| && forall i :: 0 <= i < n ==> outs[i] == outs'[i]
    ensures ModelsTo(outs, ts, n, all, lo) == ModelsTo(outs', ts, n, all, lo)
  {
    if n > 0 {
      ModelsSame(outs, outs', ts, n - 1, all, lo);
      assert outs[n - 1] == outs'[n - 1];
    }
  }

  function StacktraceCulprit(frames: seq<Frame>): string {
    if frames == [] then "" else if !frames[0].library then frames[0].name else StacktraceCulprit(frames[1..])
  }

  /** The culprit that buildModelError settles on: the causes are looked at before the
      exception that they cause. */
  function Culprit(culprit: string, t: ExceptionData): string
    decreases t, 0
  {
    var c := CulpritTo(culprit, t, |t.cause|);
    if c == "" then StacktraceCulprit(t.stacktrace) else c
  }

  function CulpritTo(culprit: string, t: ExceptionData, n: nat): string
    requires n <= |t.cause|
    decreases t, 0, n
  {
    if n == 0 then culprit else Culprit(CulpritTo(culprit, t, n - 1), t.cause[n - 1])
  }

  /** The frames of a tree are at lo in the array. */
  ghost predicate FramesAt(t: ExceptionData, all: seq<Frame>, lo: nat) {
    lo + |Frames(t)| <= |all| && all[lo..lo + |Frames(t)|] == Frames(t)
  }

  /** x, in a sequence that comes after another one, that is in an array. */
  lemma Within(all: seq<Frame>, lo: nat, a: seq<Frame>, rest: seq<Frame>, from: nat, x: seq<Frame>)
    requires lo + |a| + |rest| <= |all| && all[lo..lo + |a| + |rest|] == a + rest
    requires from + |x| <= |rest| && rest[from..from + |x|] == x
    ensures all[lo + |a| + from..lo + |a| + from + |x|] == x
  {
    var l := all[lo + |a| + from..lo + |a| + from + |x|];
    forall i | 0 <= i < |x|
      ensures l[i] == x[i]
    {
      assert l[i] == all[lo..lo + |a| + |rest|][|a| + from + i] == rest[from + i];
      assert x[i] == rest[from..from + |x|][i];
    }
  }

  lemma OwnFrames(t: ExceptionData, all: seq<Frame>, lo: nat)
    requires FramesAt(t, all, lo)
    ensures lo + |t.stacktrace| <= |all| && all[lo..lo + |t.stacktrace|] == t.stacktrace
  {
    var a := t.stacktrace;
    assert [] + Frames(t) == Frames(t) && Frames(t)[0..|a|] == a;
    Within(all, lo, [], Frames(t), 0, a);
  }

  lemma CauseFrames(t: ExceptionData, k: nat, all: seq<Frame>, lo: nat)
    requires FramesAt(t, all, lo) && k < |t.cause|
    ensures FramesAt(t.cause[k], all, lo + |t.stacktrace| + |FramesTo(t.cause, k)|)
  {
    FramesWithin(t.cause, k, |t.cause|);
    Within(all, lo, t.stacktrace, FramesTo(t.cause, |t.cause|), |FramesTo(t.cause, k)|, Frames(t.cause[k]));
  }

  class ModelWriter {
    var modelStacktrace: seq<Frame>

    /** appendModelErrorStacktraceFrames */
    method AppendFrames(t: ExceptionData)
      modifies this
      ensures modelStacktrace == old(modelStacktrace) + Frames(t)
      decreases t
    {
      if |t.stacktrace| != 0 {
        modelStacktrace := modelStacktrace + t.stacktrace;
      }
      for i := 0 to |t.cause|
        invariant modelStacktrace == old(modelStacktrace) + t.stacktrace + FramesTo(t.cause, i)
      {
        AppendFrames(t.cause[i]);
      }
    }

    /** buildException */
    method BuildException(t: ExceptionData, offset: nat, culprit: string)
      returns (out: Exception, offset': nat, culprit': string)
      requires FramesAt(t, modelStacktrace, offset)
      ensures Models(out, t, modelStacktrace, offset) && offset' == offset + |Frames(t)|
      ensures culprit' == Culprit(culprit, t)
      decreases t
    {
      var n := |t.stacktrace|;
      OwnFrames(t, modelStacktrace, offset);
      var slice := None;
      offset' := offset;
      if n != 0 {
        slice := Some(Slice(offset, offset + n));
        offset' := offset + n;
      }
      var cause: seq<Exception> := [];
      culprit' := culprit;
      for i := 0 to |t.cause|
        invariant |cause| == i && offset' == offset + n + |FramesTo(t.cause, i)|
        invariant culprit' == CulpritTo(culprit, t, i)
        invariant ModelsTo(cause, t.cause, i, modelStacktrace, offset + n)
      {
        CauseFrames(t, i, modelStacktrace, offset);
        var c;
        c, offset', culprit' := BuildException(t.cause[i], offset', culprit');
        ModelsSame(cause, cause + [c], t.cause, i, modelStacktrace, offset + n);
        cause := cause + [c];
      }
      out := Exception(t.message, slice, cause);
      if culprit' == "" {
        culprit' := StacktraceCulprit(t.stacktrace);
      }
    }
  }

  /** Where the frames of one cause are among those of all. */
  lemma {:induction false} FramesWithin(ts: seq<ExceptionData>, k: nat, n: nat)
    requires k < n <= |ts|
    ensures var lo := |FramesTo(ts, k)|;
            lo + |Frames(ts[k])| <= |FramesTo(ts, n)| && FramesTo(ts, n)[lo..lo + |Frames(ts[k])|] == Frames(ts[k])
  {
    if k < n - 1 {
      FramesWithin(ts, k, n - 1);
    }
  }

  // ----- the whole array -----

  function SlicesOf(out: Exception): seq<Slice> {
    (if out.stacktrace.Some? then [out.stacktrace.value] else []) + SlicesTo(out.cause, |out.cause|)
  }

  function SlicesTo(outs: seq<Exception>, n: nat): seq<Slice>
    requires n <= |outs|
    decreases outs, n
  {
    if n == 0 then [] else SlicesTo(outs, n - 1) + SlicesOf(outs[n - 1])
  }

  /** The slices are not empty, and each begins where the one before it ends. */
  ghost predicate Tile(slices: seq<Slice>, lo: nat, hi: nat)
    decreases |slices|
  {
    if slices == [] then lo == hi
    else slices[0].lo == lo < slices[0].hi && Tile(slices[1..], slices[0].hi, hi)
  }

  lemma {:induction false} TileAppend(a: seq<Slice>, b: seq<Slice>, lo: nat, mid: nat, hi: nat)
    requires Tile(a, lo, mid) && Tile(b, mid, hi)
    ensures Tile(a + b, lo, hi)
    decreases |a|
  {
    if a == [] {
      assert a + b == b;
    } else {
      TileAppend(a[1..], b, a[0].hi, mid, hi);
      assert (a + b)[1..] == a[1..] + b;
    }
  }

  /** The slices of a model partition the part of the array that has the tree's frames. */
  lemma {:induction false} SlicesPartition(out: Exception, t: ExceptionData, all: seq<Frame>, lo: nat)
    requires Models(out, t, all, lo)
    ensures Tile(SlicesOf(out), lo, lo + |Frames(t)|)
    decreases t
  {
    var own := if out.stacktrace.Some? then [out.stacktrace.value] else [];
    var n := |t.stacktrace|;
    assert Tile(own, lo, lo + n) by {
      if own != [] {
        assert own[1..] == [];
      }
    }
    SlicesPartitionTo(out.cause, t.cause, |t.cause|, all, lo + n);
    TileAppend(own, SlicesTo(out.cause, |out.cause|), lo, lo + n, lo + |Frames(t)|);
  }

  lemma {:induction false} SlicesPartitionTo(outs: seq<Exception>, ts: seq<ExceptionData>, n: nat, all: seq<Frame>, lo: nat)
    requires n <= |outs| && n <= |ts| && ModelsTo(outs, ts, n, all, lo)
    ensures Tile(SlicesTo(outs, n), lo, lo + |FramesTo(ts, n)|)
    decreases ts, n
  {
    if n > 0 {
      var mid := lo + |FramesTo(ts, n - 1)|;
      SlicesPartitionTo(outs, ts, n - 1, all, lo);
      SlicesPartition(outs[n - 1], ts[n - 1], all, mid);
      TileAppend(SlicesTo(outs, n - 1), SlicesOf(outs[n - 1]), lo, mid, lo + |FramesTo(ts, n)|);
    }
  }

  datatype ErrorData = ErrorData(exception: ExceptionData, culprit: string, hasLog: bool, logStacktrace: seq<Frame>)

  /** And then at the log's own stack trace. */
  function FinalCulprit(culprit: string, hasLog: bool, logStacktrace: seq<Frame>): string {
    if culprit == "" && hasLog then StacktraceCulprit(logStacktrace) else culprit
  }

  /** The part of buildModelError that slices the stack traces.  The log's slice begins where
      the exception's end if there is an exception, or nothing of it was copied; and of every
      error that can be sent one of these is true. */
  method BuildModelError(w: ModelWriter, e: ErrorData)
    returns (exception: Option<Exception>, log: Option<Slice>, culprit: string)
    modifies w
    ensures w.modelStacktrace == Frames(e.exception) + e.logStacktrace
    ensures exception.Some? <==> e.exception.message != ""
    ensures exception.Some? ==> Models(exception.value, e.exception, w.modelStacktrace, 0)
    ensures e.hasLog ==>
              (IsSlice(log, w.modelStacktrace, |Frames(e.exception)|, e.logStacktrace) <==>
               e.exception.message != "" || Frames(e.exception) == [] || e.logStacktrace == [])
    ensures exception.Some? || Frames(e.exception) == [] ==>
              culprit == FinalCulprit(if exception.Some? then Culprit(e.culprit, e.exception) else e.culprit, e.hasLog, e.logStacktrace)
  {
    hide Models;
    w.modelStacktrace := [];
    w.AppendFrames(e.exception);
    if |e.logStacktrace| != 0 {
      w.modelStacktrace := w.modelStacktrace + e.logStacktrace;
    }
    assert w.modelStacktrace[|Frames(e.exception)|..] == e.logStacktrace;
    var offset := 0;
    culprit := e.culprit;
    exception, log := None, None;
    if e.exception.message != "" {
      var out;
      out, offset, culprit := w.BuildException(e.exception, 0, culprit);
      exception := Some(out);
    }
    if e.hasLog {
      var n := |e.logStacktrace|;
      if n != 0 {
        log := Some(Slice(offset, offset + n));
        if culprit == "" {
          culprit := StacktraceCulprit(w.modelStacktrace[offset..offset + n]);
        }
      }
    }
  }

  const NO_EXCEPTION := ExceptionData(0, "", [], [])

  /** An error as callers make it, being recorded. */
  class Error {
    var exception: ExceptionData
    var culprit: string
    var logMessage: string
    var logStacktrace: seq<Frame>

    /** Without an exception there are no frames of one. */
    ghost predicate Valid()
      reads this
    {
      exception.message == "" ==> Frames(exception) == []
    }

    /** NewError, with the frames of its caller. */
    constructor NewError(errors: Errors, err: nat, frames: seq<Frame>)
      ensures Valid() && exception.message != "" && exception.err == err && logMessage == "" && logStacktrace == []
    {
      exception, culprit, logMessage, logStacktrace := NO_EXCEPTION, "", "", [];
      new;
      exception := InitException(errors, err);
      if |exception.stacktrace| == 0 {
        SetStacktrace(frames);
      }
    }

    /** NewErrorLog, with or without an error. */
    constructor NewErrorLog(errors: Errors, message: string, err: Option<nat>)
      ensures Valid() && logMessage == (if message == "" then "[EMPTY]" else message) && logStacktrace == []
      ensures exception.message != "" <==> err.Some?
    {
      exception, culprit, logMessage, logStacktrace := NO_EXCEPTION, "", message, [];
      new;
      if logMessage == "" {
        logMessage := "[EMPTY]";
      }
      if err.Some? {
        exception := InitException(errors, err.value);
      }
    }

    /** SetStacktrace: of the log, if there is a log message, and else of the exception. */
    method SetStacktrace(frames: seq<Frame>)
      requires Valid() && (exception.message != "" || logMessage != "")
      modifies this`exception, this`logStacktrace
      ensures Valid() && (exception.message == "") == old(exception.message == "") && exception.err == old(exception.err)
      ensures logMessage != "" ==> logStacktrace == frames && exception == old(exception)
      ensures logMessage == "" ==>
                logStacktrace == old(logStacktrace) && exception == old(exception).(stacktrace := frames)
    {
      if logMessage != "" {
        logStacktrace := frames;
      } else {
        exception := exception.(stacktrace := frames);
      }
    }
  }

  /** writeError: each exception gets exactly its own frames, and the log exactly its own. */
  method WriteError(w: ModelWriter, e: Error) returns (exception: Option<Exception>, log: Option<Slice>, culprit: string)
    requires e.Valid()
    modifies w
    ensures w.modelStacktrace == Frames(e.exception) + e.logStacktrace
    ensures exception.Some? <==> e.exception.message != ""
    ensures exception.Some? ==> Models(exception.value, e.exception, w.modelStacktrace, 0)
    ensures e.logMessage != "" ==> IsSlice(log, w.modelStacktrace, |Frames(e.exception)|, e.logStacktrace)
    ensures var c := if exception.Some? then Culprit(e.culprit, e.exception) else e.culprit;
            culprit == FinalCulprit(c, e.logMessage != "", e.logStacktrace)
  {
    exception, log, culprit :=
      BuildModelError(w, ErrorData(e.exception, e.culprit, e.logMessage != "", e.logStacktrace));
  }

  /** The stack traces of a tree, those of the causes first. */
  function PostTraces(t: ExceptionData): seq<seq<Frame>>
    decreases t, 0
  {
    PostTracesTo(t, |t.cause|) + [t.stacktrace]
  }

  function PostTracesTo(t: ExceptionData, n: nat): seq<seq<Frame>>
    requires n <= |t.cause|
    decreases t, 0, n
  {
    if n == 0 then [] else PostTracesTo(t, n - 1) + PostTraces(t.cause[n - 1])
  }

  /** The first of the stack traces that has a culprit says which. */
  function FirstCulprit(traces: seq<seq<Frame>>): string {
    if traces == [] then ""
    else if StacktraceCulprit(traces[0]) != "" then StacktraceCulprit(traces[0])
    else FirstCulprit(traces[1..])
  }

  lemma {:induction false} FirstCulpritAppend(a: seq<seq<Frame>>, b: seq<seq<Frame>>)
    ensures FirstCulprit(a + b) == if FirstCulprit(a) != "" then FirstCulprit(a) else FirstCulprit(b)
  {
    if a == [] {
      assert a + b == b;
    } else {
      assert (a + b)[1..] == a[1..] + b;
      FirstCulpritAppend(a[1..], b);
    }
  }

  /** A culprit that is set stays, and otherwise it is that of the first stack trace that has
      one, those of the causes coming before those of what they caused. */
  lemma {:induction false} CulpritIsInnermost(culprit: string, t: ExceptionData)
    ensures Culprit(culprit, t) == if culprit != "" then culprit else FirstCulprit(PostTraces(t))
    decreases t, 0
  {
    CulpritIsInnermostTo(culprit, t, |t.cause|);
    FirstCulpritAppend(PostTracesTo(t, |t.cause|), [t.stacktrace]);
  }

  lemma {:induction false} CulpritIsInnermostTo(culprit: string, t: ExceptionData, n: nat)
    requires n <= |t.cause|
    ensures CulpritTo(culprit, t, n) == if culprit != "" then culprit else FirstCulprit(PostTracesTo(t, n))
    decreases t, 0, n
  {
    if n > 0 {
      CulpritIsInnermostTo(culprit, t, n - 1);
      CulpritIsInnermost(CulpritTo(culprit, t, n - 1), t.cause[n - 1]);
      FirstCulpritAppend(PostTracesTo(t, n - 1), PostTraces(t.cause[n - 1]));
    }
  }

  /** setSpanData puts the transaction's custom context in front of the error's own, in one
      array and with overlapping copies. */
  method PrependCustom(own: seq<string>, custom: seq<string>) returns (a: array<string>)
    ensures a[..] == custom + own
  {
    var m, n := |own|, |custom|;
    a := new string[m + n](i requires 0 <= i < m + n => if i < m then own[i] else custom[i - m]);
    if n != 0 && m != 0 {
      forall i | 0 <= i < m {
        a[n + i] := a[i];
      }
      forall i | 0 <= i < n {
        a[i] := custom[i];
      }
    }
  }
}
