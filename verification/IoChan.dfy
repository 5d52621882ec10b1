/** The channel reader (internal/iochan/reader.go): a client that Reads, and a server that
    receives the read requests and responds to them.

    Each method is one atomic step of one party.  A client that has called Read is first
    `Offering` its buffer at the select, then `Awaiting` the response. */
module IoChan {
  import opened Basics

  datatype Client = Idle | Offering(cap: nat) | Awaiting(cap: nat)

  /** What a Read comes back with: the response made to it, or the error of CloseRead. */
  datatype Outcome = Responded(data: seq<byte>, eof: bool) | ReadClosed

  function DataTo(log: seq<Outcome>, n: nat): seq<byte>
    requires n <= |log|
  {
    if n == 0 then [] else DataTo(log, n - 1) + if log[n - 1].Responded? then log[n - 1].data else []
  }

  /** All that the Reads brought. */
  function Data(log: seq<Outcome>): seq<byte> {
    DataTo(log, |log|)
  }

  lemma {:induction false} DataPrefix(a: seq<Outcome>, b: seq<Outcome>, n: nat)
    requires n <= |a|
    ensures DataTo(a + b, n) == DataTo(a, n)
  {
    if n > 0 {
      DataPrefix(a, b, n - 1);
    }
  }

  lemma DataAppend(log: seq<Outcome>, o: Outcome)
    ensures Data(log + [o]) == Data(log) + if o.Responded? then o.data else []
  {
    DataPrefix(log, [o], |log|);
  }

  predicate IsEnd(o: Outcome) {
    o.Responded? && o.eof
  }

  /** Some Read was told the end. */
  predicate EndIn(log: seq<Outcome>) {
    exists o :: o in log && IsEnd(o)
  }

  lemma EndAppend(log: seq<Outcome>, o: Outcome)
    ensures EndIn(log + [o]) <==> EndIn(log) || IsEnd(o)
  {
    if EndIn(log) {
      var e :| e in log && IsEnd(e);
      assert e in log + [o];
    }
    assert o in log + [o];
  }

  class Reader {
    var client: Client
    /** The response channel, which holds one response. */
    var resp: Option<Outcome>
    var readClosed: bool
    var writeClosed: bool

    /** How many Reads were begun, and what each of those that came back returned. */
    ghost var begun: nat
    ghost var log: seq<Outcome>

    /** All bytes responded with so far, and whether the end was told. */
    ghost var sent: seq<byte>
    ghost var told: bool

    /** There is a request that the server has received and still owes a response. */
    ghost predicate Owed()
      reads this
    {
      client.Awaiting? && resp.None? && !readClosed
    }

    ghost predicate Valid()
      reads this
    {
      && (resp.Some? ==> client.Awaiting? && resp.value.Responded?)
      && begun == |log| + (if client.Idle? then 0 else 1)
      && sent == Data(log) + (if resp.Some? then resp.value.data else [])
      && (told <==> EndIn(log) || (resp.Some? && IsEnd(resp.value)))
      && (ReadClosed in log ==> readClosed)
    }

    constructor ()
      ensures Valid() && client.Idle? && !readClosed && !writeClosed
      ensures begun == 0 && log == [] && sent == [] && !told
    {
      client, resp, readClosed, writeClosed := Idle, None, false, false;
      begun, log, sent, told := 0, [], [], false;
    }

    /** The client calls Read.  (After CloseWrite this would panic.) */
    method BeginRead(cap: nat)
      requires Valid() && client.Idle? && !writeClosed
      modifies this`client, this`begun
      ensures Valid() && client == Offering(cap) && begun == old(begun) + 1
    {
      client := Offering(cap);
      begun := begun + 1;
    }

    /** The select of Read takes its first case: the response channel is closed. */
    method FailRead()
      requires Valid() && client.Offering? && readClosed
      modifies this`client, this`log
      ensures Valid() && client.Idle? && log == old(log) + [ReadClosed]
    {
      DataAppend(log, ReadClosed);
      EndAppend(log, ReadClosed);
      client := Idle;
      log := log + [ReadClosed];
    }

    /** The server receives the request from C. */
    method Receive() returns (cap: nat)
      requires Valid() && client.Offering?
      modifies this`client
      ensures Valid() && client == Awaiting(cap) && old(client) == Offering(cap) && resp.None?
    {
      cap := client.cap;
      client := Awaiting(cap);
    }

    /** The server responds.  After CloseRead this would panic, and a second response
        would block: neither can happen to a request that is owed one. */
    method Respond(data: seq<byte>, eof: bool)
      requires Valid() && Owed()
      modifies this`resp, this`sent, this`told
      ensures Valid() && !Owed() && resp == Some(Responded(data, eof)) && sent == old(sent) + data
      ensures told == (old(told) || eof)
    {
      resp := Some(Responded(data, eof));
      sent, told := sent + data, told || eof;
    }

    /** The client gets what was responded, even if the reader was closed since; with
        nothing responded it waits until the reader is closed. */
    method EndRead() returns (o: Outcome)
      requires Valid() && client.Awaiting? && !Owed()
      modifies this`client, this`resp, this`log
      ensures Valid() && client.Idle? && resp.None? && log == old(log) + [o]
      ensures o == if old(resp).Some? then old(resp).value else ReadClosed
    {
      o := if resp.Some? then resp.value else ReadClosed;
      resp := None;
      DataAppend(log, o);
      EndAppend(log, o);
      client := Idle;
      log := log + [o];
    }

    /** Closing twice is closing once. */
    method CloseRead()
      requires Valid()
      modifies this`readClosed
      ensures Valid() && readClosed && !Owed()
    {
      if !readClosed {
        readClosed := true;
      }
    }

    method CloseWrite()
      requires Valid() && client.Idle?
      modifies this`writeClosed
      ensures Valid() && writeClosed
    {
      if !writeClosed {
        writeClosed := true;
      }
    }
  }

  /** What a server holds of a reader: a request exactly when it owes a response to one. */
  ghost predicate Serves(r: Reader, req: Option<nat>, closed: bool)
    reads r
  {
    && r.Valid()
    && (req.Some? <==> r.Owed())
    && (req.Some? ==> r.client == Awaiting(req.value))
    && r.readClosed == closed
  }

  /** In every state of a reader: each Read that was begun has come back with exactly one
      outcome, or is the one in progress; and what the Reads have brought is a prefix of
      what was responded, all of it when no response is in the channel; and the end was told
      when it was responded to a Read, or is in the channel. */
  lemma ReadsGetWhatWasSent(r: Reader)
    requires r.Valid()
    ensures r.begun - 1 <= |r.log| <= r.begun
    ensures r.client.Idle? <==> |r.log| == r.begun
    ensures Data(r.log) <= r.sent
    ensures r.resp.None? ==> Data(r.log) == r.sent
    ensures r.told <==> EndIn(r.log) || (r.resp.Some? && IsEnd(r.resp.value))
    ensures !r.readClosed ==> forall o :: o in r.log ==> o.Responded?
  {
    forall o | o in r.log && !r.readClosed
      ensures o.Responded?
    {
      assert o.Responded? || o == ReadClosed;
    }
  }
}
