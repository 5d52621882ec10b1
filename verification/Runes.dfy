/** Text as Go sees it: a sequence of bytes that is decoded rune by rune as UTF-8 (RFC 3629,
    section 4); a byte that begins no well-formed sequence is a rune of its own.
    Here also apmstrings.Truncate (internal/apmstrings/truncate.go). */
module Runes {

  import opened Basics

  predicate Ascii(b: byte) {
    b < 0x80
  }

  predicate Continues(b: byte) {
    0x80 <= b < 0xC0
  }

  /** The length that a first byte announces. */
  function Announced(b: byte): nat {
    if 0xC2 <= b <= 0xDF then 2 else if 0xE0 <= b <= 0xEF then 3 else if 0xF0 <= b <= 0xF4 then 4 else 1
  }

  predicate Second(first: byte, b: byte) {
    && (if first == 0xE0 then 0xA0 else if first == 0xF0 then 0x90 else 0x80) <= b
    && b <= (if first == 0xED then 0x9F else if first == 0xF4 then 0x8F else 0xBF)
  }

  /** The sequence that the byte at i announces is there. */
  predicate WellFormedAt(s: seq<byte>, i: nat)
    requires i < |s|
  {
    var n := Announced(s[i]);
    && i + n <= |s|
    && (n >= 2 ==> Second(s[i], s[i + 1]))
    && (n >= 3 ==> Continues(s[i + 2]))
    && (n == 4 ==> Continues(s[i + 3]))
  }

  /** How many bytes the rune at i has. */
  function Width(s: seq<byte>, i: nat): (w: nat)
    requires i < |s|
    ensures 1 <= w <= 4 && i + w <= |s|
    ensures Ascii(s[i]) ==> w == 1
  {
    if WellFormedAt(s, i) then Announced(s[i]) else 1
  }

  /** How many runes there are from i on. */
  function Count(s: seq<byte>, i: nat): nat
    requires i <= |s|
    decreases |s| - i
  {
    if i == |s| then 0 else 1 + Count(s, i + Width(s, i))
  }

  /** Where n runes from i on end, or the end of s. */
  function After(s: seq<byte>, i: nat, n: nat): (j: nat)
    requires i <= |s|
    ensures i <= j <= |s|
    decreases n
  {
    if n == 0 || i == |s| then i else After(s, i + Width(s, i), n - 1)
  }

  function First(s: seq<byte>, n: nat): (t: seq<byte>)
    ensures t <= s
  {
    s[..After(s, 0, n)]
  }

  function Min(a: int, b: int): int {
    if a <= b then a else b
  }

  // ----- what truncation keeps -----

  lemma WidthOfPrefix(s: seq<byte>, i: nat, k: nat)
    requires i < k <= |s| && i + Width(s, i) <= k
    ensures Width(s[..k], i) == Width(s, i)
  {
  }

  /** Up to the end of n runes, a text and its prefix have the same runes. */
  lemma {:induction false} CountOfPrefix(s: seq<byte>, i: nat, n: nat)
    requires i <= |s|
    ensures Count(s[..After(s, i, n)], i) == Min(n, Count(s, i))
    decreases n
  {
    if n > 0 && i < |s| {
      var k := After(s, i, n);
      CountOfPrefix(s, i + Width(s, i), n - 1);
      WidthOfPrefix(s, i, k);
    }
  }

  lemma {:induction false} AfterAll(s: seq<byte>, i: nat, n: nat)
    requires i <= |s|
    ensures After(s, i, n) == |s| <==> Count(s, i) <= n
    decreases n
  {
    if n > 0 && i < |s| {
      AfterAll(s, i + Width(s, i), n - 1);
    }
  }

  /** Truncating at n runes leaves a prefix with as many runes as there are, but at most n,
      and leaves the text alone exactly if it has no more. */
  lemma FirstIsPrefix(s: seq<byte>, n: nat)
    ensures First(s, n) <= s && Count(First(s, n), 0) == Min(n, Count(s, 0))
    ensures First(s, n) == s <==> Count(s, 0) <= n
  {
    CountOfPrefix(s, 0, n);
    AfterAll(s, 0, n);
    assert s[..|s|] == s;
  }

  // ----- texts put together -----

  /** No rune crosses the boundary of a and b. */
  predicate Apart(a: seq<byte>, b: seq<byte>) {
    a == [] || b == [] || Ascii(a[|a| - 1]) || Ascii(b[0])
  }

  lemma WidthLeft(a: seq<byte>, b: seq<byte>, i: nat)
    requires Apart(a, b) && i < |a|
    ensures Width(a + b, i) == Width(a, i)
  {
    var s, n := a + b, Announced(a[i]);
    assert s[i] == a[i];
    if n > 1 && i + n > |a| {
      assert !WellFormedAt(a, i);
      assert b != [] ==> s[|a|] == b[0] && s[|a| - 1] == a[|a| - 1];
    }
  }

  lemma WidthRight(a: seq<byte>, b: seq<byte>, i: nat)
    requires i < |b|
    ensures Width(a + b, |a| + i) == Width(b, i)
  {
    var s := a + b;
    assert forall k :: 0 <= k < |b| ==> s[|a| + k] == b[k];
  }

  lemma {:induction false} RightPart(a: seq<byte>, b: seq<byte>, i: nat, n: nat)
    requires i <= |b|
    ensures Count(a + b, |a| + i) == Count(b, i) && After(a + b, |a| + i, n) == |a| + After(b, i, n)
    decreases |b| - i
  {
    if i < |b| {
      WidthRight(a, b, i);
      RightPart(a, b, i + Width(b, i), if n == 0 then 0 else n - 1);
    }
  }

  lemma {:induction false} LeftPart(a: seq<byte>, b: seq<byte>, i: nat, n: nat)
    requires Apart(a, b) && i <= |a|
    ensures Count(a + b, i) == Count(a, i) + Count(b, 0)
    ensures After(a + b, i, n) == if n <= Count(a, i) then After(a, i, n) else |a| + After(b, 0, n - Count(a, i))
    decreases |a| - i
  {
    if i == |a| {
      RightPart(a, b, 0, n);
    } else {
      WidthLeft(a, b, i);
      LeftPart(a, b, i + Width(a, i), if n == 0 then 0 else n - 1);
    }
  }

  /** Truncating two texts put together is truncating the second at what the first leaves,
      provided no rune crosses the boundary. */
  lemma FirstOfBoth(a: seq<byte>, b: seq<byte>, n: nat)
    requires Apart(a, b)
    ensures First(a + b, n) == First(a, n) + First(b, n - Min(n, Count(a, 0)))
    ensures Count(a + b, 0) == Count(a, 0) + Count(b, 0)
  {
    LeftPart(a, b, 0, n);
    AfterAll(a, 0, n);
    var c := Count(a, 0);
    if n <= c {
      assert (a + b)[..After(a, 0, n)] == a[..After(a, 0, n)];
    } else {
      assert (a + b)[..|a| + After(b, 0, n - c)] == a + b[..After(b, 0, n - c)];
    }
  }

  lemma {:induction false} AsciiCount(s: seq<byte>, i: nat, n: nat)
    requires i <= |s| && forall k :: 0 <= k < |s| ==> Ascii(s[k])
    ensures Count(s, i) == |s| - i && After(s, i, n) == Min(i + n, |s|)
    decreases |s| - i
  {
    if i < |s| {
      AsciiCount(s, i + 1, if n == 0 then 0 else n - 1);
    }
  }

  /** Truncate: the first n runes of s, and how many they are. */
  method Truncate(s: seq<byte>, n: nat) returns (truncated: seq<byte>, runes: nat)
    ensures truncated == First(s, n) && runes == Min(n, Count(s, 0))
  {
    var j := 0;
    var i := 0;
    while i < |s|
      invariant 0 <= i <= |s| && 0 <= j <= n
      invariant After(s, 0, n) == After(s, i, n - j) && Count(s, 0) == j + Count(s, i)
      decreases |s| - i
    {
      if j == n {
        return s[..i], n;
      }
      j := j + 1;
      i := i + Width(s, i);
    }
    assert s[..|s|] == s;
    return s, j;
  }
}
