/** The notifications that callers of Flush get from the tracer's loop (tracer.go).

    What matters of a run is its moments: a Flush asks, having found nothing to send or not; a
    request's result comes; a caller receives from its channel.  A Flush is named by the number
    of its moment.  The loop keeps the channel of the last one, and clears it only when a
    result comes; each channel has room for one notification. */
module FlushHistory {
  import opened Basics

  datatype Moment = Asked(idle: bool) | Ended | Received(flush: nat)

  /** The Flush whose channel the loop keeps after n moments. */
  function Pending(tr: seq<Moment>, n: nat): Option<nat>
    requires n <= |tr|
  {
    if n == 0 then None
    else match tr[n - 1]
      case Asked(_) => Some(n - 1)
      case Ended => None
      case Received(_) => Pending(tr, n - 1)
  }

  /** All notifications so far, in order. */
  function Notices(tr: seq<Moment>, n: nat): seq<nat>
    requires n <= |tr|
  {
    if n == 0 then []
    else Notices(tr, n - 1) + match tr[n - 1]
      case Asked(idle) => if idle then [n - 1] else []
      case Ended => if Pending(tr, n - 1).Some? then [Pending(tr, n - 1).value] else []
      case Received(_) => []
  }

  /** How many of the first n are for Flush i. */
  function Times(notices: seq<nat>, n: nat, i: nat): nat
    requires n <= |notices|
  {
    if n == 0 then 0 else Times(notices, n - 1, i) + if notices[n - 1] == i then 1 else 0
  }

  lemma {:induction false} TimesPrefix(a: seq<nat>, b: seq<nat>, n: nat, i: nat)
    requires n <= |a|
    ensures Times(a + b, n, i) == Times(a, n, i)
  {
    if n > 0 {
      TimesPrefix(a, b, n - 1, i);
    }
  }

  lemma TimesAppend(a: seq<nat>, x: nat, i: nat)
    ensures Times(a + [x], |a| + 1, i) == Times(a, |a|, i) + if x == i then 1 else 0
  {
    TimesPrefix(a, [x], |a|, i);
  }

  lemma {:induction false} PrefixMoments(a: seq<Moment>, b: seq<Moment>, n: nat)
    requires n <= |a|
    ensures Pending(a + b, n) == Pending(a, n) && Notices(a + b, n) == Notices(a, n)
  {
    if n > 0 {
      PrefixMoments(a, b, n - 1);
    }
  }

  /** Flush i asked, and since then there was no other, and no result. */
  ghost predicate Open(tr: seq<Moment>, n: nat, i: nat)
    requires n <= |tr|
  {
    i < n && tr[i].Asked? && forall j :: i < j < n ==> tr[j].Received?
  }

  /** The loop keeps the channel of just that Flush. */
  lemma {:induction false} PendingIsOpen(tr: seq<Moment>, n: nat, i: nat)
    requires n <= |tr|
    ensures Pending(tr, n) == Some(i) <==> Open(tr, n, i)
  {
    if n > 0 {
      PendingIsOpen(tr, n - 1, i);
      if Open(tr, n, i) && i < n - 1 {
        assert tr[n - 1].Received?;
        assert Open(tr, n - 1, i);
      }
    }
  }

  /** A result came after Flush i, and before any other Flush. */
  ghost predicate ResultFirst(tr: seq<Moment>, n: nat, i: nat)
    requires n <= |tr|
  {
    exists k :: i < k < n && IsFirstResult(tr, i, k)
  }

  ghost predicate IsFirstResult(tr: seq<Moment>, i: nat, k: nat)
    requires i < k < |tr|
  {
    tr[k].Ended? && forall j :: i < j < k ==> tr[j].Received?
  }

  lemma ResultFirstStep(tr: seq<Moment>, n: nat, i: nat)
    requires 0 < n <= |tr| && i < n - 1 && tr[i].Asked?
    ensures ResultFirst(tr, n, i) <==> ResultFirst(tr, n - 1, i) || (tr[n - 1].Ended? && Open(tr, n - 1, i))
    ensures ResultFirst(tr, n - 1, i) ==> !Open(tr, n - 1, i)
  {
    if ResultFirst(tr, n, i) {
      var k :| i < k < n && IsFirstResult(tr, i, k);
      if k == n - 1 {
        assert Open(tr, n - 1, i);
      }
    }
    if tr[n - 1].Ended? && Open(tr, n - 1, i) {
      assert IsFirstResult(tr, i, n - 1);
    }
    if ResultFirst(tr, n - 1, i) {
      var k :| i < k < n - 1 && IsFirstResult(tr, i, k);
      assert IsFirstResult(tr, i, k);
    }
  }

  /** The notifications of a Flush are one if it found nothing to send, and one if a result comes
      before the next Flush: so there may be none, or two. */
  lemma {:induction false} NoticesOfFlush(tr: seq<Moment>, n: nat, i: nat)
    requires n <= |tr|
    ensures var ns := Notices(tr, n);
            Times(ns, |ns|, i) == if i < n && tr[i].Asked? then
                                    (if tr[i].idle then 1 else 0) + (if ResultFirst(tr, n, i) then 1 else 0)
                                  else 0
  {
    if n > 0 {
      NoticesOfFlush(tr, n - 1, i);
      PendingIsOpen(tr, n - 1, i);
      var ns, m := Notices(tr, n - 1), tr[n - 1];
      if m.Asked? && m.idle {
        TimesAppend(ns, n - 1, i);
      } else if m.Ended? && Pending(tr, n - 1).Some? {
        TimesAppend(ns, Pending(tr, n - 1).value, i);
      } else {
        assert ns + [] == ns;
      }
      if i < n - 1 && tr[i].Asked? {
        ResultFirstStep(tr, n, i);
      }
    }
  }

  /** So a Flush is notified exactly once if and only if it either found nothing to send, or a
      result came before the next one, but not both. */
  lemma NotifiedOnce(tr: seq<Moment>, i: nat)
    requires i < |tr| && tr[i].Asked?
    ensures var ns := Notices(tr, |tr|);
            Times(ns, |ns|, i) == 1 <==> tr[i].idle != ResultFirst(tr, |tr|, i)
  {
    NoticesOfFlush(tr, |tr|, i);
  }

  /** The channel of Flush i holds a notification that was not received. */
  predicate Full(tr: seq<Moment>, n: nat, i: nat)
    requires n <= |tr|
  {
    n > 0 && match tr[n - 1]
      case Asked(idle) => if i == n - 1 then idle else Full(tr, n - 1, i)
      case Ended => Pending(tr, n - 1) == Some(i) || Full(tr, n - 1, i)
      case Received(flush) => flush != i && Full(tr, n - 1, i)
  }

  /** A result that comes now would be sent to a full channel, and the loop wait. */
  predicate Blocks(tr: seq<Moment>) {
    Pending(tr, |tr|).Some? && Full(tr, |tr|, Pending(tr, |tr|).value)
  }

  lemma {:induction false} FullWhileOpen(tr: seq<Moment>, n: nat, i: nat)
    requires n <= |tr| && Open(tr, n, i)
    ensures Full(tr, n, i) <==> tr[i].idle && forall j :: i < j < n ==> tr[j] != Received(i)
  {
    if i < n - 1 {
      FullWhileOpen(tr, n - 1, i);
    }
  }

  /** The last Flush found nothing to send, no result came since, and its caller has never
      received the notification. */
  ghost predicate Unread(tr: seq<Moment>, i: nat) {
    Open(tr, |tr|, i) && tr[i].idle && forall j :: i < j < |tr| ==> tr[j] != Received(i)
  }

  /** And exactly then the loop waits at a result. */
  lemma BlocksExactly(tr: seq<Moment>)
    ensures Blocks(tr) <==> exists i: nat :: Unread(tr, i)
  {
    forall i: nat
      ensures Pending(tr, |tr|) == Some(i) <==> Open(tr, |tr|, i)
    {
      PendingIsOpen(tr, |tr|, i);
    }
    if Pending(tr, |tr|).Some? {
      var i := Pending(tr, |tr|).value;
      FullWhileOpen(tr, |tr|, i);
      assert Blocks(tr) ==> Unread(tr, i);
    }
  }
}
