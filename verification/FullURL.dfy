/** What is kept of a text that is written piece by piece, up to a number of runes. */
module Truncation {
  import opened Basics
  import opened Runes

  ghost predicate Kept(limit: nat, contents: seq<byte>, runes: nat, whole: seq<byte>) {
    contents == First(whole, limit) && runes == Min(limit, Count(whole, 0))
  }

  lemma KeptAscii(limit: nat, s: seq<byte>)
    requires |s| <= limit && forall i :: 0 <= i < |s| ==> Ascii(s[i])
    ensures Kept(limit, s, |s|, s)
  {
    AsciiCount(s, 0, limit);
    assert s[..|s|] == s;
  }

  lemma MinSum(n: nat, a: nat, b: nat)
    ensures Min(n, a + b) == Min(n, a) + Min(n - Min(n, a), b)
  {
  }

  lemma FirstMore(limit: nat, runes: nat, whole: seq<byte>, v: seq<byte>)
    requires runes == Min(limit, Count(whole, 0)) && Apart(whole, v)
    ensures First(whole + v, limit) == First(whole, limit) + First(v, limit - runes)
    ensures Min(limit, Count(whole + v, 0)) == runes + Min(limit - runes, Count(v, 0))
  {
    FirstOfBoth(whole, v, limit);
    MinSum(limit, Count(whole, 0), Count(v, 0));
  }

  lemma KeptMore(limit: nat, contents: seq<byte>, runes: nat, whole: seq<byte>, v: seq<byte>)
    requires Kept(limit, contents, runes, whole) && Apart(whole, v) && runes <= limit
    ensures Kept(limit, contents + First(v, limit - runes), runes + Min(limit - runes, Count(v, 0)), whole + v)
  {
    FirstMore(limit, runes, whole, v);
  }

  lemma Joined(a: seq<byte>, b: byte, c: seq<byte>)
    ensures a + [b] + c == a + ([b] + c) && Apart(a + [b], c) == (Ascii(b) || c == [] || Ascii(c[0]))
  {
    assert (a + [b])[|a + [b]| - 1] == b;
  }

  lemma FirstNone(v: seq<byte>, n: nat)
    requires n == 0 || v == []
    ensures First(v, n) == []
  {
  }

  lemma NothingMore(contents: seq<byte>, v: seq<byte>, n: nat)
    requires Min(n, Count(v, 0)) == 0
    ensures contents + First(v, n) == contents
  {
    assert Count(v, 0) == 0 <==> v == [];
    FirstNone(v, n);
    assert contents + [] == contents;
  }

  lemma FirstByte(v: byte, n: nat)
    requires n > 0 && Ascii(v)
    ensures First([v], n) == [v] && Count([v], 0) == 1
  {
    AsciiCount([v], 0, n);
  }
}

/** The full URL of an HTTP request, truncated as it is written (model/marshal.go). */
module FullURL {
  import opened Basics
  import opened Runes
  import opened Truncation

  const MAX_RUNES := 1024

  const COLON: byte := 0x3A
  const SLASH: byte := 0x2F
  const OPEN: byte := 0x5B
  const CLOSE: byte := 0x5D
  const QUESTION: byte := 0x3F
  const NUMBER: byte := 0x23

  datatype URL = URL(hostname: seq<byte>, port: seq<byte>, path: seq<byte>, search: seq<byte>, hash: seq<byte>)

  // ----- the scheme -----

  predicate SchemeByte(c: byte) {
    'a' as int <= c <= 'z' as int || '0' as int <= c <= '9' as int ||
    c == '+' as int || c == '-' as int || c == '.' as int
  }

  predicate Upper(c: byte) {
    'A' as int <= c <= 'Z' as int
  }

  function Lower(c: byte): byte {
    if Upper(c) then c + 0x20 else c
  }

  predicate IsScheme(s: seq<byte>) {
    forall i :: 0 <= i < |s| ==> SchemeByte(s[i])
  }

  /** marshalScheme: the scheme in lower case, unless a byte is not one of a scheme. */
  method MarshalScheme(scheme: seq<byte>) returns (ok: bool, out: seq<byte>)
    ensures ok <==> forall i :: 0 <= i < |scheme| ==> SchemeByte(scheme[i]) || Upper(scheme[i])
    ensures ok ==> IsScheme(out) && |out| == |scheme| && forall i :: 0 <= i < |out| ==> out[i] == Lower(scheme[i])
  {
    out := [];
    for i := 0 to |scheme|
      invariant |out| == i && forall k :: 0 <= k < i ==> SchemeByte(out[k]) && out[k] == Lower(scheme[k])
      invariant forall k :: 0 <= k < i ==> SchemeByte(scheme[k]) || Upper(scheme[k])
    {
      var c := scheme[i];
      if SchemeByte(c) {
        out := out + [c];
      } else if Upper(c) {
        out := out + [c + 0x20];
      } else {
        return false, out;
      }
    }
    return true, out;
  }

  // ----- the URL -----

  function HostPart(hostname: seq<byte>): seq<byte> {
    if COLON in hostname then [OPEN] + hostname + [CLOSE] else hostname
  }

  function PathPart(path: seq<byte>): seq<byte> {
    if path == [] || path[0] == SLASH then path else [SLASH] + path
  }

  function Optional(sep: byte, v: seq<byte>): seq<byte> {
    if v == [] then [] else [sep] + v
  }

  /** What is to be written, before any truncation. */
  function Whole(scheme: seq<byte>, u: URL): seq<byte> {
    scheme + [COLON, SLASH, SLASH] + HostPart(u.hostname) + Optional(COLON, u.port) + PathPart(u.path)
    + Optional(QUESTION, u.search) + Optional(NUMBER, u.hash)
  }

  /** What is written between the quotes, and the count of its runes.  The ghost field is
      what would have been written without a limit. */
  class Writer {
    const limit: nat
    var contents: seq<byte>
    var runes: nat
    ghost var whole: seq<byte>

    ghost predicate Valid()
      reads this
    {
      runes <= limit && Kept(limit, contents, runes, whole)
    }

    constructor (prefix: seq<byte>, limit: nat)
      requires |prefix| < limit && forall i :: 0 <= i < |prefix| ==> Ascii(prefix[i])
      ensures Valid() && whole == prefix && this.limit == limit
    {
      KeptAscii(limit, prefix);
      this.limit, contents, runes, whole := limit, prefix, |prefix|, prefix;
    }

    method RawByte(v: byte)
      requires Valid() && Ascii(v)
      modifies this
      ensures Valid() && whole == old(whole) + [v]
    {
      KeptMore(limit, contents, runes, whole, [v]);
      whole := whole + [v];
      if runes == limit {
        NothingMore(contents, [v], 0);
        return;
      }
      FirstByte(v, limit - runes);
      contents := contents + [v];
      runes := runes + 1;
    }

    method StringContents(v: seq<byte>)
      requires Valid() && Apart(whole, v)
      modifies this
      ensures Valid() && whole == old(whole) + v
    {
      var remaining := limit - runes;
      var truncated, n := Truncate(v, remaining);
      KeptMore(limit, contents, runes, whole, v);
      whole := whole + v;
      if n > 0 {
        contents := contents + truncated;
        runes := runes + n;
      } else {
        NothingMore(contents, v, remaining);
      }
    }

    method Hostname(hostname: seq<byte>)
      requires Valid() && whole != [] && Ascii(whole[|whole| - 1])
      modifies this
      ensures Valid() && whole == old(whole) + HostPart(hostname)
    {
      if COLON !in hostname {
        StringContents(hostname);
      } else {
        ghost var before := whole;
        RawByte(OPEN);
        Joined(before, OPEN, hostname);
        StringContents(hostname);
        RawByte(CLOSE);
        assert before + ([OPEN] + hostname) + [CLOSE] == before + ([OPEN] + hostname + [CLOSE]);
      }
    }

    method Component(sep: byte, v: seq<byte>)
      requires Valid() && Ascii(sep)
      modifies this
      ensures Valid() && whole == old(whole) + Optional(sep, v)
    {
      if v != [] {
        Joined(whole, sep, v);
        RawByte(sep);
        StringContents(v);
      }
    }

    method Path(path: seq<byte>)
      requires Valid()
      modifies this
      ensures Valid() && whole == old(whole) + PathPart(path)
    {
      if path != [] {
        if path[0] != SLASH {
          Joined(whole, SLASH, path);
          RawByte(SLASH);
        }
        StringContents(path);
      }
    }
  }

  /** A scheme that alone is too long is cut. */
  lemma LongScheme(prefix: seq<byte>, rest: seq<byte>)
    requires |prefix| >= MAX_RUNES && forall i :: 0 <= i < |prefix| ==> Ascii(prefix[i])
    ensures First(prefix + rest, MAX_RUNES) == prefix[..MAX_RUNES]
  {
    AsciiCount(prefix, 0, MAX_RUNES);
    FirstOfBoth(prefix, rest, MAX_RUNES);
    FirstNone(rest, 0);
  }

  /** marshalFullURL: the first 1024 runes of the whole, whatever part crosses the limit. */
  method MarshalFullURL(scheme: seq<byte>, u: URL) returns (full: seq<byte>)
    requires IsScheme(scheme)
    ensures full == First(Whole(scheme, u), MAX_RUNES)
  {
    hide First, HostPart, Optional, PathPart;
    var prefix := scheme + [COLON, SLASH, SLASH];
    if |prefix| >= MAX_RUNES {
      ghost var rest := HostPart(u.hostname) + Optional(COLON, u.port) + PathPart(u.path)
                        + Optional(QUESTION, u.search) + Optional(NUMBER, u.hash);
      LongScheme(prefix, rest);
      assert Whole(scheme, u) == prefix + rest;
      return prefix[..MAX_RUNES];
    }
    var w := new Writer(prefix, MAX_RUNES);
    w.Hostname(u.hostname);
    w.Component(COLON, u.port);
    w.Path(u.path);
    w.Component(QUESTION, u.search);
    w.Component(NUMBER, u.hash);
    assert w.whole == Whole(scheme, u);
    return w.contents;
  }
}
