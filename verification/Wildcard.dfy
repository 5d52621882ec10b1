/** The wildcard matcher (internal/wildcard/matcher.go), proved against the language of globs.

    Strings are sequences of bytes, written as characters.  The case-insensitive matcher is
    considered on ASCII, where runes are bytes. */
module Wildcard {
  import opened Basics

  // ----- globs -----

  /** Whether s is in the language of p, where a star stands for any string. */
  ghost predicate Glob(p: string, s: string)
    decreases |p|
  {
    if p == "" then s == ""
    else if p[0] == '*' then exists k | 0 <= k <= |s| :: Glob(p[1..], s[k..])
    else s != "" && s[0] == p[0] && Glob(p[1..], s[1..])
  }

  predicate HasPrefix(s: string, part: string) {
    |part| <= |s| && s[..|part|] == part
  }

  /** Whether the part occurs at j. */
  predicate At(s: string, j: nat, part: string) {
    j <= |s| && HasPrefix(s[j..], part)
  }

  /** What comes after it. */
  function After(s: string, j: nat, part: string): string
    requires At(s, j, part)
  {
    s[j + |part|..]
  }

  predicate HasSuffix(s: string, part: string) {
    |part| <= |s| && s[|s| - |part|..] == part
  }

  /** strings.Split(p, "*") */
  function Split(p: string): (pieces: seq<string>)
    ensures pieces != []
    ensures forall i :: 0 <= i < |pieces| ==> '*' !in pieces[i]
  {
    if p == "" then [""]
    else
      var rest := Split(p[1..]);
      if p[0] == '*' then [""] + rest else [[p[0]] + rest[0]] + rest[1..]
  }

  function NonEmpty(pieces: seq<string>): (parts: seq<string>)
    ensures forall i :: 0 <= i < |parts| ==> parts[i] != "" && parts[i] in pieces
  {
    if pieces == [] then []
    else if pieces[0] == "" then NonEmpty(pieces[1..])
    else [pieces[0]] + NonEmpty(pieces[1..])
  }

  /** Whether s is a placement of the parts: the first at the front unless a star comes
      before it, each next one anywhere after, and the last at the end unless `end`. */
  ghost predicate Placed(star: bool, parts: seq<string>, end: bool, s: string)
    decreases |parts|
  {
    if parts == [] then star || s == ""
    else
      exists j: nat ::
        (star || j == 0) && At(s, j, parts[0]) && Placed(|parts| > 1 || end, parts[1..], end, After(s, j, parts[0]))
  }

  /** With the first part at j. */
  ghost predicate PlacedAt(j: nat, parts: seq<string>, end: bool, s: string)
    requires parts != []
  {
    At(s, j, parts[0]) && Placed(|parts| > 1 || end, parts[1..], end, After(s, j, parts[0]))
  }

  lemma Place(j: nat, star: bool, parts: seq<string>, end: bool, s: string)
    requires parts != [] && PlacedAt(j, parts, end, s) && (star || j == 0)
    ensures Placed(star, parts, end, s)
  {
  }

  lemma FindPlace(star: bool, parts: seq<string>, end: bool, s: string) returns (j: nat)
    requires parts != [] && Placed(star, parts, end, s)
    ensures PlacedAt(j, parts, end, s) && (star || j == 0)
  {
    j :| (star || j == 0) && At(s, j, parts[0]) && Placed(|parts| > 1 || end, parts[1..], end, After(s, j, parts[0]));
  }

  /** An occurrence, seen from further on. */
  lemma Shifted(k: nat, j: nat, part: string, s: string)
    requires k <= |s|
    ensures At(s[k..], j, part) == At(s, k + j, part)
    ensures At(s[k..], j, part) ==> After(s[k..], j, part) == After(s, k + j, part)
  {
    if k + j <= |s| {
      assert s[k..][j..] == s[k + j..];
    }
  }

  // ----- the language in terms of parts -----

  predicate Starts(p: string) {
    p != "" && p[0] == '*'
  }

  predicate Ends(p: string) {
    p != "" && p[|p| - 1] == '*'
  }

  /** After a star the rest may be placed further on. */
  lemma Further(k: nat, star: bool, parts: seq<string>, end: bool, s: string)
    requires k <= |s| && Placed(star, parts, end, s[k..]) && (parts == [] ==> star || s == "")
    ensures Placed(true, parts, end, s)
  {
    if parts != [] {
      var j := FindPlace(star, parts, end, s[k..]);
      Shifted(k, j, parts[0], s);
      Place(k + j, true, parts, end, s);
    }
  }

  /** And if it is not further on, it is at the front of what is left. */
  lemma NoFurther(star: bool, parts: seq<string>, end: bool, s: string) returns (k: nat)
    requires Placed(true, parts, end, s) && (parts == [] ==> star)
    ensures k <= |s| && Placed(star, parts, end, s[k..])
  {
    k := 0;
    if parts != [] {
      k := FindPlace(true, parts, end, s);
      Shifted(k, 0, parts[0], s);
      Place(0, star, parts, end, s[k..]);
    }
  }

  lemma AtFront(parts: seq<string>, end: bool, s: string)
    requires parts != []
    ensures Placed(false, parts, end, s) <==> PlacedAt(0, parts, end, s)
  {
    if Placed(false, parts, end, s) {
      var j := FindPlace(false, parts, end, s);
    }
    if PlacedAt(0, parts, end, s) {
      Place(0, false, parts, end, s);
    }
  }

  /** One more character in front of the first part. */
  lemma CharInFront(c: char, first: string, rest: seq<string>, end: bool, s: string)
    ensures Placed(false, [[c] + first] + rest, end, s) <==>
            s != "" && s[0] == c && Placed(false, [first] + rest, end, s[1..])
  {
    var part := [c] + first;
    assert s[0..] == s && ([part] + rest)[1..] == rest && ([first] + rest)[1..] == rest;
    if 0 < |part| <= |s| {
      assert s[1..][0..] == s[1..];
      assert s[..|part|] == [s[0]] + s[1..][..|first|];
      assert s[1..][|first|..] == s[|part|..];
    }
    assert PlacedAt(0, [part] + rest, end, s) <==> s != "" && s[0] == c && PlacedAt(0, [first] + rest, end, s[1..]);
    AtFront([part] + rest, end, s);
    if s != "" {
      AtFront([first] + rest, end, s[1..]);
    }
  }

  lemma CharAlone(c: char, rest: seq<string>, star: bool, end: bool, s: string)
    requires star == (rest != [] || end)
    ensures Placed(false, [[c]] + rest, end, s) <==> s != "" && s[0] == c && Placed(star, rest, end, s[1..])
  {
    assert s[0..] == s;
    assert ([[c]] + rest)[1..] == rest;
    if s != "" {
      assert s[..1] == [s[0]];
    }
    assert PlacedAt(0, [[c]] + rest, end, s) <==> s != "" && s[0] == c && Placed(star, rest, end, s[1..]);
    AtFront([[c]] + rest, end, s);
  }

  /** The language of a pattern is the placements of its parts. */
  lemma {:induction false} GlobIsPlacement(p: string, s: string)
    ensures Glob(p, s) <==> Placed(Starts(p), NonEmpty(Split(p)), Ends(p), s)
    decreases |p|
  {
    if p == "" {
      assert NonEmpty([""]) == NonEmpty([""][1..]) == [];
    } else {
      var q := p[1..];
      var rest := Split(q);
      var parts := NonEmpty(rest);
      assert q != "" ==> Ends(p) == Ends(q);
      PartsOfTail(p);
      if p[0] == '*' {
        forall k | 0 <= k <= |s|
          ensures Glob(q, s[k..]) == Placed(Starts(q), parts, Ends(q), s[k..])
        {
          GlobIsPlacement(q, s[k..]);
        }
        if parts == [] {
          NoParts(q);
          assert Glob(q, s[|s|..]);
        } else {
          if Placed(true, parts, Ends(q), s) {
            var k := NoFurther(Starts(q), parts, Ends(q), s);
          }
          if k :| 0 <= k <= |s| && Placed(Starts(q), parts, Ends(q), s[k..]) {
            Further(k, Starts(q), parts, Ends(q), s);
          }
        }
      } else {
        if s != "" {
          GlobIsPlacement(q, s[1..]);
        }
        if rest[0] == "" {
          if parts == [] {
            NoParts(q);
          }
          CharAlone(p[0], parts, Starts(q), Ends(p), s);
        } else {
          CharInFront(p[0], rest[0], NonEmpty(rest[1..]), Ends(p), s);
        }
      }
    }
  }

  /** The parts of a pattern, from those of its tail. */
  lemma PartsOfTail(p: string)
    requires p != ""
    ensures var rest := Split(p[1..]);
            && (rest[0] == "" <==> p[1..] == "" || Starts(p[1..]))
            && NonEmpty(Split(p)) ==
               if p[0] == '*' then NonEmpty(rest)
               else if rest[0] == "" then [[p[0]]] + NonEmpty(rest)
               else [[p[0]] + rest[0]] + NonEmpty(rest[1..])
  {
    var rest := Split(p[1..]);
    assert ([""] + rest)[1..] == rest;
    assert ([[p[0]] + rest[0]] + rest[1..])[1..] == rest[1..];
    assert [p[0]] + "" == [p[0]];
  }

  /** A pattern without parts is all stars. */
  lemma {:induction false} NoParts(p: string)
    requires NonEmpty(Split(p)) == []
    ensures p == "" || (Starts(p) && Ends(p))
    ensures p == "" || Glob(p, "")
    decreases |p|
  {
    if p != "" {
      PartsOfTail(p);
      NoParts(p[1..]);
      assert ""[0..] == "";
    }
  }

  // ----- case -----

  predicate Ascii(s: string) {
    forall i :: 0 <= i < |s| ==> s[i] < 128 as char
  }

  lemma LowerSlices(s: string, k: nat)
    requires k <= |s|
    ensures Lower(s)[k..] == Lower(s[k..]) && Lower(s)[..k] == Lower(s[..k])
  {
  }

  function LowerAll(pieces: seq<string>): seq<string> {
    seq(|pieces|, i requires 0 <= i < |pieces| => Lower(pieces[i]))
  }

  lemma LowerOneMore(part: string, rest: seq<string>)
    ensures LowerAll([part] + rest) == [Lower(part)] + LowerAll(rest)
    ensures Lower(part) == "" <==> part == ""
  {
  }

  lemma {:induction false} LowerParts(pieces: seq<string>)
    ensures NonEmpty(LowerAll(pieces)) == LowerAll(NonEmpty(pieces))
  {
    if pieces != [] {
      var part, rest := pieces[0], pieces[1..];
      LowerParts(rest);
      LowerOneMore(part, rest);
      LowerOneMore(part, NonEmpty(rest));
      assert pieces == [part] + rest && ([Lower(part)] + LowerAll(rest))[1..] == LowerAll(rest);
    }
  }

  lemma {:induction false} LowerSplit(p: string)
    ensures Split(Lower(p)) == LowerAll(Split(p))
  {
    if p != "" {
      LowerSplit(p[1..]);
      LowerSlices(p, 1);
      var rest := Split(p[1..]);
      assert Lower([p[0]] + rest[0]) == [LowerChar(p[0])] + Lower(rest[0]);
    }
  }

  // ----- the matcher -----

  datatype Matcher = Matcher(parts: seq<string>, wildcardBegin: bool, wildcardEnd: bool, caseSensitive: bool) {
    /** What Match decides, of the lower-cased string if it is not case-sensitive: the last
        part, where no star follows it, is looked for apart from the others. */
    ghost predicate Accepts(s: string) {
      var n := |parts|;
      if n == 0 && !wildcardBegin && !wildcardEnd then s == ""
      else if n == 1 && !wildcardBegin && !wildcardEnd then s == parts[0]
      else if wildcardEnd || n == 0 then Placed(wildcardBegin, parts, true, s)
      else HasSuffix(s, parts[n - 1]) && Placed(wildcardBegin, parts[..n - 1], true, s)
    }

    predicate Valid() {
      && (forall part :: part in parts ==> part != "")
      && (parts == [] ==> wildcardBegin == wildcardEnd)
    }

    /** What the case-insensitive matcher makes of a string. */
    function Seen(s: string): string {
      if caseSensitive then s else Lower(s)
    }
  }

  /** The matcher for a pattern. */
  function Parse(p: string, caseSensitive: bool): Matcher {
    Matcher(NonEmpty(Split(if caseSensitive then p else Lower(p))), Starts(p), Ends(p), caseSensitive)
  }

  lemma ParseValid(p: string, caseSensitive: bool)
    ensures Parse(p, caseSensitive).Valid()
  {
    var q := if caseSensitive then p else Lower(p);
    if NonEmpty(Split(q)) == [] {
      NoParts(q);
    }
  }

  function Cased(caseSensitive: bool, parts: seq<string>): seq<string> {
    if caseSensitive then parts else LowerAll(parts)
  }

  /** One more piece, which counts unless it is empty. */
  lemma OnePiece(caseSensitive: bool, parts: seq<string>, pieces: seq<string>, i: nat)
    requires i < |pieces|
    ensures pieces[i] == "" ==>
              Cased(caseSensitive, NonEmpty(pieces[i..])) == Cased(caseSensitive, NonEmpty(pieces[i + 1..]))
    ensures pieces[i] != "" ==>
              parts + Cased(caseSensitive, NonEmpty(pieces[i..])) ==
              parts + [if caseSensitive then pieces[i] else Lower(pieces[i])] +
              Cased(caseSensitive, NonEmpty(pieces[i + 1..]))
  {
    var part, rest := pieces[i], NonEmpty(pieces[i + 1..]);
    assert pieces[i..][1..] == pieces[i + 1..];
    if part != "" {
      LowerOneMore(part, rest);
      assert Cased(caseSensitive, [part] + rest) ==
             [if caseSensitive then part else Lower(part)] + Cased(caseSensitive, rest);
    }
  }

  method NewMatcher(p: string, caseSensitive: bool) returns (m: Matcher)
    ensures m == Parse(p, caseSensitive) && m.Valid()
  {
    hide Cased, NonEmpty, Matcher.Valid;
    var pieces := Split(p);
    var parts: seq<string> := [];
    for i := 0 to |pieces|
      invariant parts + Cased(caseSensitive, NonEmpty(pieces[i..])) == Cased(caseSensitive, NonEmpty(pieces))
    {
      OnePiece(caseSensitive, parts, pieces, i);
      var part := pieces[i];
      if part == "" {
        continue;
      }
      if !caseSensitive {
        part := Lower(part);
      }
      parts := parts + [part];
    }
    PartsOf(p, caseSensitive);
    assert pieces[|pieces|..] == [] && parts + [] == parts;
    ParseValid(p, caseSensitive);
    m := Matcher(parts, Starts(p), Ends(p), caseSensitive);
  }

  /** Lower-casing the parts gives the parts of the lower-cased pattern. */
  lemma PartsOf(p: string, caseSensitive: bool)
    ensures Cased(caseSensitive, NonEmpty(Split(p))) == Parse(p, caseSensitive).parts
    ensures Cased(caseSensitive, NonEmpty([])) == []
  {
    LowerSplit(p);
    LowerParts(Split(p));
  }

  /** strings.Index: the leftmost occurrence. */
  method Index(s: string, part: string) returns (j: int)
    ensures Found(j, true, part, s)
  {
    j := 0;
    while j <= |s|
      invariant 0 <= j <= |s| + 1
      invariant forall k :: 0 <= k < j ==> !At(s, k, part)
    {
      if HasPrefix(s[j..], part) {
        return;
      }
      assert !At(s, j, part);
      j := j + 1;
    }
    j := -1;
  }

  /** Returns 0 if s begins with the prefix when lower-cased, and else the size of the first
      character.  Where s ends before its first character differs that size is 0, too. */
  method HasPrefixLower(s: string, prefixLower: string) returns (skip: nat)
    requires Ascii(s) && Ascii(prefixLower) && Lower(prefixLower) == prefixLower
    ensures skip <= 1
    ensures |prefixLower| <= |s| ==> (skip == 0 <==> HasPrefix(Lower(s), prefixLower))
    ensures s == "" ==> skip == 0
  {
    var firstSize := 0;
    for i := 0 to |prefixLower|
      invariant firstSize == if i == 0 || s == "" then 0 else 1
      invariant |prefixLower| <= |s| ==> Lower(s)[..i] == prefixLower[..i]
    {
      var r := prefixLower[i];
      var size := if i < |s| then 1 else 0;
      if firstSize == 0 {
        firstSize := size;
      }
      assert r in prefixLower && LowerChar(r) == Lower(prefixLower)[i] == r;
      if i >= |s| || (s[i] != r && s[i] != UpperChar(r)) {
        assert |prefixLower| <= |s| ==> Lower(s)[i] != r && Lower(s)[..|prefixLower|][i] != r;
        return firstSize;
      }
      assert |prefixLower| <= |s| ==> Lower(s)[..i + 1] == Lower(s)[..i] + [Lower(s)[i]];
    }
    assert prefixLower[..|prefixLower|] == prefixLower;
    return 0;
  }

  /** Looks for the part as it is or, with caseSensitive off, in s as if it were lower-cased;
      only at the front if it is not floating. */
  method Find(caseSensitive: bool, floating: bool, s: string, part: string) returns (j: int)
    requires part != "" && (!caseSensitive ==> Ascii(s) && Ascii(part) && Lower(part) == part)
    ensures Found(j, floating, part, if caseSensitive then s else Lower(s))
  {
    if caseSensitive {
      if floating {
        j := Index(s, part);
      } else {
        j := if HasPrefix(s, part) then 0 else -1;
        assert s[0..] == s;
      }
    } else {
      j := FindLower(floating, s, part);
    }
  }

  method FindLower(floating: bool, s: string, part: string) returns (j: int)
    requires part != "" && Ascii(s) && Ascii(part) && Lower(part) == part
    ensures Found(j, floating, part, Lower(s))
  {
    var off := 0;
    j := -1;
    while j == -1 && |s| - off >= |part|
      invariant 0 <= off <= |s| && -1 <= j <= |s|
      invariant forall k :: 0 <= k < off ==> !At(Lower(s), k, part)
      invariant j >= 0 ==> j == off && At(Lower(s), j, part)
      invariant !floating ==> off == 0
      decreases |s| - off, if j == -1 then 1 else 0
    {
      LowerSlices(s, off);
      var skip := HasPrefixLower(s[off..], part);
      assert At(Lower(s), off, part) <==> skip == 0;
      if skip == 0 {
        j := off;
      } else {
        if !floating {
          return -1;
        }
        off := off + skip;
      }
    }
  }

  /** Match reports exactly what Accepts says. */
  method Match(m: Matcher, s: string) returns (r: bool)
    requires m.Valid()
    requires !m.caseSensitive ==> Ascii(s) && forall part :: part in m.parts ==> Ascii(part) && Lower(part) == part
    ensures r <==> m.Accepts(m.Seen(s))
  {
    ghost var seen := m.Seen(s);
    if |m.parts| == 0 && !m.wildcardBegin && !m.wildcardEnd {
      return s == "";
    }
    if |m.parts| == 1 && !m.wildcardBegin && !m.wildcardEnd {
      assert m.parts[0] in m.parts;
      if m.caseSensitive {
        return s == m.parts[0];
      }
      if |s| != |m.parts[0]| {
        return false;
      }
      var skip := HasPrefixLower(s, m.parts[0]);
      assert seen[..|seen|] == seen;
      return skip == 0;
    }
    var parts := m.parts;
    if !m.wildcardEnd && |parts| > 0 {
      var part := parts[|parts| - 1];
      assert part in m.parts;
      if |s| < |part| {
        return false;
      }
      var tail := s[|s| - |part|..];
      LowerSlices(s, |s| - |part|);
      if m.caseSensitive {
        if tail != part {
          return false;
        }
      } else {
        var skip := HasPrefixLower(tail, part);
        assert Lower(tail)[..|part|] == Lower(tail);
        if skip != 0 {
          return false;
        }
      }
      parts := parts[..|parts| - 1];
      assert forall p :: p in parts ==> p in m.parts;
    }
    r := MatchParts(m, parts, s);
  }

  /** The loop of Match: each part is taken at its leftmost occurrence. */
  method MatchParts(m: Matcher, parts: seq<string>, s: string) returns (r: bool)
    requires forall part :: part in parts ==> part != ""
    requires !m.caseSensitive ==> Ascii(s) && forall part :: part in parts ==> Ascii(part) && Lower(part) == part
    requires parts == [] ==> m.wildcardBegin || s == ""
    ensures r <==> Placed(m.wildcardBegin, parts, true, m.Seen(s))
  {
    var t := s;
    ghost var placed := Placed(m.wildcardBegin, parts, true, m.Seen(s));
    for i := 0 to |parts|
      invariant !m.caseSensitive ==> Ascii(t)
      invariant placed == Placed(i > 0 || m.wildcardBegin, parts[i..], true, m.Seen(t))
    {
      var part := parts[i];
      assert part in parts;
      var star := i > 0 || m.wildcardBegin;
      var j := Find(m.caseSensitive, star, t, part);
      TakePart(j, star, parts[i..], m.Seen(t));
      if j == -1 {
        return false;
      }
      assert parts[i..][1..] == parts[i + 1..];
      LowerSlices(t, j + |part|);
      t := t[j + |part|..];
    }
    return true;
  }

  /** What Find says of its result. */
  ghost predicate Found(j: int, star: bool, part: string, s: string) {
    && -1 <= j <= |s|
    && (j >= 0 ==> At(s, j, part) && (star || j == 0) && forall k :: 0 <= k < j ==> !At(s, k, part))
    && (j == -1 ==> forall k: nat :: star || k == 0 ==> !At(s, k, part))
  }

  /** Where a part occurs at all, its leftmost occurrence is as good as any. */
  lemma Leftmost(j: nat, star: bool, parts: seq<string>, s: string)
    requires parts != [] && Found(j, star, parts[0], s) && Placed(star, parts, true, s)
    ensures Placed(true, parts[1..], true, After(s, j, parts[0]))
  {
    var i := FindPlace(star, parts, true, s);
    var t := After(s, j, parts[0]);
    assert t[i - j..] == After(s, i, parts[0]);
    Further(i - j, true, parts[1..], true, t);
  }

  /** One step of the loop, with what Find found. */
  lemma TakePart(j: int, star: bool, parts: seq<string>, s: string)
    requires parts != [] && Found(j, star, parts[0], s)
    ensures Placed(star, parts, true, s) == (j >= 0 && Placed(true, parts[1..], true, After(s, j, parts[0])))
  {
    if j >= 0 {
      if Placed(star, parts, true, s) {
        Leftmost(j, star, parts, s);
      }
      if Placed(true, parts[1..], true, After(s, j, parts[0])) {
        Place(j, star, parts, true, s);
      }
    } else if Placed(star, parts, true, s) {
      var i := FindPlace(star, parts, true, s);
    }
  }

  // ----- when the matcher accepts exactly the pattern's language -----

  function Concat(parts: seq<string>): string {
    if parts == [] then "" else parts[0] + Concat(parts[1..])
  }

  lemma {:induction false} PlacedNeedsRoom(star: bool, parts: seq<string>, end: bool, s: string)
    requires Placed(star, parts, end, s)
    ensures |s| >= |Concat(parts)|
    decreases |parts|
  {
    if parts != [] {
      var j := FindPlace(star, parts, end, s);
      PlacedNeedsRoom(|parts| > 1 || end, parts[1..], end, After(s, j, parts[0]));
    }
  }

  lemma AtGrows(s: string, t: string, j: nat, part: string)
    requires At(s, j, part)
    ensures At(s + t, j, part) && After(s + t, j, part) == After(s, j, part) + t
  {
    assert (s + t)[j..] == s[j..] + t;
    assert (s[j..] + t)[..|part|] == s[j..][..|part|];
  }

  lemma AtCut(s: string, e: nat, j: nat, part: string)
    requires At(s, j, part) && j + |part| <= e <= |s|
    ensures At(s[..e], j, part) && After(s[..e], j, part) == After(s, j, part)[..e - j - |part|]
  {
    assert s[..e][j..][..|part|] == s[j..][..|part|];
  }

  /** With a star at the end there may always be more. */
  lemma {:induction false} MoreRoom(star: bool, parts: seq<string>, s: string, t: string)
    requires Placed(star, parts, true, s) && (parts == [] ==> star)
    ensures Placed(star, parts, true, s + t)
    decreases |parts|
  {
    if parts != [] {
      var j := FindPlace(star, parts, true, s);
      MoreRoom(true, parts[1..], After(s, j, parts[0]), t);
      AtGrows(s, t, j, parts[0]);
      Place(j, star, parts, true, s + t);
    }
  }

  /** The last part alone. */
  lemma OnlyPart(star: bool, part: string, s: string)
    ensures Placed(star, [part], false, s) <==> if star then HasSuffix(s, part) else s == part
  {
    if Placed(star, [part], false, s) {
      var j := FindPlace(star, [part], false, s);
      assert After(s, j, part) == "";
      assert s[j..][..|part|] == s[j..] && s[0..] == s;
    }
    if (star && HasSuffix(s, part)) || s == part {
      var j := |s| - |part|;
      assert At(s, j, part) && After(s, j, part) == "";
      assert PlacedAt(j, [part], false, s);
      Place(j, star, [part], false, s);
    }
  }

  lemma Suffixes(s: string, k: nat, q: string)
    requires k + |q| <= |s|
    ensures HasSuffix(s[k..], q) == HasSuffix(s, q)
    ensures s[k..][..|s| - k - |q|] == s[..|s| - |q|][k..]
  {
    assert s[k..][|s| - k - |q|..] == s[|s| - |q|..];
  }

  /** The last part ends the string, and the others come before it. */
  lemma {:induction false} LastApart(star: bool, parts: seq<string>, q: string, s: string)
    requires Placed(star, parts + [q], false, s) && (parts == [] ==> star)
    ensures HasSuffix(s, q) && Placed(star, parts, true, s[..|s| - |q|])
    decreases |parts|
  {
    if parts == [] {
      OnlyPart(star, q, s);
      assert parts + [q] == [q];
    } else {
      hide Placed;
      var p := parts[0];
      var j := FindPlace(star, parts + [q], false, s);
      var t := After(s, j, p);
      assert (parts + [q])[1..] == parts[1..] + [q];
      LastApart(true, parts[1..], q, t);
      Suffixes(s, j + |p|, q);
      AtCut(s, |s| - |q|, j, p);
      Place(j, star, parts, true, s[..|s| - |q|]);
    }
  }

  /** And that is enough. */
  lemma {:induction false} LastJoins(star: bool, parts: seq<string>, q: string, s: string)
    requires Placed(star, parts, true, s) && (parts == [] ==> star)
    ensures Placed(star, parts + [q], false, s + q)
    decreases |parts|
  {
    if parts == [] {
      assert HasSuffix(s + q, q);
      OnlyPart(star, q, s + q);
      assert parts + [q] == [q];
    } else {
      var j := FindPlace(star, parts, true, s);
      LastJoins(true, parts[1..], q, After(s, j, parts[0]));
      assert (parts + [q])[1..] == parts[1..] + [q];
      AtGrows(s, q, j, parts[0]);
      Place(j, star, parts + [q], false, s + q);
    }
  }

  /** Where the last of the parts ends. */
  lemma {:induction false} LastEnds(star: bool, parts: seq<string>, s: string) returns (e: nat)
    requires parts != [] && Placed(star, parts, true, s)
    ensures e <= |s| && Placed(star, parts, false, s[..e])
    decreases |parts|
  {
    var p := parts[0];
    var j := FindPlace(star, parts, true, s);
    var t := After(s, j, p);
    if |parts| == 1 {
      e := j + |p|;
    } else {
      var e' := LastEnds(true, parts[1..], t);
      e := j + |p| + e';
    }
    AtCut(s, e, j, p);
    Place(j, star, parts, false, s[..e]);
  }

  /** Whether an occurrence of q at the end of a string can overlap one of r that begins
      before it or, if r is floating, inside it. */
  predicate CanOverlap(r: string, q: string, floating: bool) {
    exists j | 1 <= j <= |q| :: OverlapsBy(j, r, q, floating)
  }

  predicate OverlapsBy(j: nat, r: string, q: string, floating: bool)
    requires j <= |q|
  {
    if j <= |r| then r[|r| - j..] == q[..j] else floating && q[j - |r|..j] == r
  }

  /** The pattern ends with a star, or has at most one part, or its last part cannot
      overlap the one before. */
  predicate Exact(m: Matcher) {
    var n := |m.parts|;
    m.wildcardEnd || n <= 1 || !CanOverlap(m.parts[n - 2], m.parts[n - 1], m.wildcardBegin || n > 2)
  }

  lemma LastTogether(star: bool, parts: seq<string>, q: string, s: string)
    requires HasSuffix(s, q) && Placed(star, parts, true, s[..|s| - |q|]) && (parts == [] ==> star)
    ensures Placed(star, parts + [q], false, s)
  {
    LastJoins(star, parts, q, s[..|s| - |q|]);
    assert s[..|s| - |q|] + q == s;
  }

  lemma LastAnywhere(star: bool, parts: seq<string>, q: string, s: string)
    requires Placed(star, parts + [q], false, s) && (parts == [] ==> star)
    ensures HasSuffix(s, q) && Placed(star, parts, true, s)
  {
    LastApart(star, parts, q, s);
    MoreRoom(star, parts, s[..|s| - |q|], s[|s| - |q|..]);
    assert s[..|s| - |q|] + s[|s| - |q|..] == s;
  }

  /** What is in the matcher's language: a placement of its parts. */
  ghost predicate InLanguage(m: Matcher, s: string) {
    Placed(m.wildcardBegin, m.parts, m.wildcardEnd, s)
  }

  lemma PlacedIsAccepted(m: Matcher, s: string)
    requires m.Valid() && InLanguage(m, s)
    ensures m.Accepts(s)
  {
    var n := |m.parts|;
    if n > 0 && !m.wildcardEnd {
      var init, q := m.parts[..n - 1], m.parts[n - 1];
      assert m.parts == init + [q];
      if n == 1 && !m.wildcardBegin {
        OnlyPart(false, q, s);
        assert m.parts == [q];
      } else {
        LastAnywhere(m.wildcardBegin, init, q, s);
      }
    }
  }

  /** A string in the language is always accepted. */
  lemma GlobIsAccepted(p: string, s: string)
    requires Glob(p, s)
    ensures Parse(p, true).Accepts(s)
  {
    GlobIsPlacement(p, s);
    ParseValid(p, true);
    PlacedIsAccepted(Parse(p, true), s);
  }

  /** Where the end of a string overlaps what ends before it. */
  lemma Overlaps(s: string, e: nat, r: string, q: string)
    requires HasSuffix(s, q) && e <= |s| && HasSuffix(s[..e], r) && |s| - |q| < e
    ensures OverlapsBy(e - (|s| - |q|), r, q, true)
  {
    var c, j := |s| - |q|, e - (|s| - |q|);
    assert q == s[c..] && r == s[e - |r|..e];
    if j <= |r| {
      assert r[|r| - j..] == s[c..e] == q[..j];
    } else {
      assert q[j - |r|..j] == s[c + j - |r|..c + j] == s[e - |r|..e];
    }
  }

  lemma EndsWithLast(star: bool, parts: seq<string>, s: string)
    requires parts != [] && Placed(star, parts, false, s)
    ensures HasSuffix(s, parts[|parts| - 1])
    ensures |parts| == 1 && !star ==> s == parts[0]
  {
    var n := |parts|;
    var r := parts[n - 1];
    assert parts == parts[..n - 1] + [r];
    if n == 1 && !star {
      OnlyPart(false, r, s);
      assert parts == [r];
    } else {
      LastApart(star, parts[..n - 1], r, s);
    }
  }

  lemma OverlapIfLater(star: bool, parts: seq<string>, q: string, s: string, e: nat)
    requires parts != [] && e <= |s| && Placed(star, parts, false, s[..e]) && HasSuffix(s, q) && e > |s| - |q|
    ensures CanOverlap(parts[|parts| - 1], q, star || |parts| > 1)
  {
    var r, j := parts[|parts| - 1], e - (|s| - |q|);
    EndsWithLast(star, parts, s[..e]);
    Overlaps(s, e, r, q);
    assert OverlapsBy(j, r, q, star || |parts| > 1);
  }

  /** If the last part cannot overlap, the parts before it come before it. */
  lemma NoOverlap(star: bool, parts: seq<string>, q: string, s: string)
    requires parts != [] && Placed(star, parts, true, s) && HasSuffix(s, q)
    requires !CanOverlap(parts[|parts| - 1], q, star || |parts| > 1)
    ensures Placed(star, parts, true, s[..|s| - |q|])
  {
    hide Placed, CanOverlap, HasSuffix;
    var c := |s| - |q|;
    var e := LastEnds(star, parts, s);
    if e > c {
      OverlapIfLater(star, parts, q, s, e);
    } else {
      StarAtEnd(star, parts, s[..e]);
      MoreRoom(star, parts, s[..e], s[e..c]);
      assert s[..e] + s[e..c] == s[..c];
    }
  }

  lemma {:induction false} StarAtEnd(star: bool, parts: seq<string>, s: string)
    requires parts != [] && Placed(star, parts, false, s)
    ensures Placed(star, parts, true, s)
    decreases |parts|
  {
    var j := FindPlace(star, parts, false, s);
    if |parts| > 1 {
      StarAtEnd(true, parts[1..], After(s, j, parts[0]));
    }
    Place(j, star, parts, true, s);
  }

  lemma AcceptedIsPlaced(m: Matcher, s: string)
    requires m.Valid() && Exact(m) && m.Accepts(s)
    ensures InLanguage(m, s)
  {
    var n := |m.parts|;
    if n > 0 && !m.wildcardEnd {
      var init, q := m.parts[..n - 1], m.parts[n - 1];
      assert m.parts == init + [q];
      if n == 1 && !m.wildcardBegin {
        OnlyPart(false, q, s);
        assert m.parts == [q];
      } else {
        if n > 1 {
          NoOverlap(m.wildcardBegin, init, q, s);
        }
        LastTogether(m.wildcardBegin, init, q, s);
      }
    }
  }

  /** The parts one after another, with a gap before the last if there may be one. */
  lemma {:induction false} Together(star: bool, parts: seq<string>, gap: string, r: string, t: string)
    requires gap == "" || star || parts != []
    ensures Placed(star, parts + [r], true, Concat(parts) + gap + r + t)
    decreases |parts|
  {
    var s := Concat(parts) + gap + r + t;
    if parts == [] {
      var j := |gap|;
      assert s[j..] == r + t && s[j..][..|r|] == r;
      assert PlacedAt(j, [r], true, s);
      Place(j, star, [r], true, s);
      assert parts + [r] == [r];
    } else {
      var p, rest := parts[0], Concat(parts[1..]) + gap + r + t;
      Together(true, parts[1..], gap, r, t);
      assert s == p + rest && s[0..] == s && s[..|p|] == p && After(s, 0, p) == rest;
      assert (parts + [r])[1..] == parts[1..] + [r];
      Place(0, star, parts + [r], true, s);
    }
  }

  lemma {:induction false} ConcatAppend(parts: seq<string>, q: string)
    ensures Concat(parts + [q]) == Concat(parts) + q
  {
    if parts == [] {
      assert [q][1..] == [];
      assert [] + [q] == [q];
    } else {
      ConcatAppend(parts[1..], q);
      assert (parts + [q])[1..] == parts[1..] + [q];
      assert parts[0] + (Concat(parts[1..]) + q) == parts[0] + Concat(parts[1..]) + q;
    }
  }

  /** r and q overlapping by j, as what comes before r, and what comes before q. */
  lemma Overlapped(j: nat, r: string, q: string) returns (gap: string, front: string)
    requires 1 <= j <= |q| && OverlapsBy(j, r, q, true) && r != ""
    ensures gap + r + q[j..] == front + q && |front| < |r| && (j <= |r| ==> gap == "")
  {
    if j <= |r| {
      gap, front := "", r[..|r| - j];
      assert r == front + q[..j];
    } else {
      gap, front := q[..j - |r|], "";
    }
  }

  lemma Regroup(a: string, b: string, c: string, d: string)
    ensures a + b + c + d == a + (b + c + d)
  {
  }

  /** If it can overlap, then the string in which it does is accepted, and is too short to be
      in the language. */
  lemma OverlapIsAccepted(m: Matcher) returns (s: string)
    requires m.Valid() && !Exact(m)
    ensures m.Accepts(s) && !InLanguage(m, s)
  {
    var n := |m.parts|;
    var init, r, q := m.parts[..n - 2], m.parts[n - 2], m.parts[n - 1];
    assert r in m.parts;
    var j :| 1 <= j <= |q| && OverlapsBy(j, r, q, m.wildcardBegin || n > 2);
    var gap, front := Overlapped(j, r, q);
    s := Concat(init) + gap + r + q[j..];
    Together(m.wildcardBegin, init, gap, r, q[j..]);
    Regroup(Concat(init), gap, r, q[j..]);
    Regroup(Concat(init), front, q, "");
    assert front + q + "" == front + q && Concat(init) + front + q + "" == Concat(init) + front + q;
    assert m.parts[..n - 1] == init + [r];
    TooShort(m, init, r, q, front);
  }

  lemma TooShort(m: Matcher, init: seq<string>, r: string, q: string, front: string)
    requires m.parts == init + [r] + [q] && |front| < |r|
    ensures !InLanguage(m, Concat(init) + front + q)
  {
    ConcatAppend(init, r);
    ConcatAppend(init + [r], q);
    if InLanguage(m, Concat(init) + front + q) {
      PlacedNeedsRoom(m.wildcardBegin, m.parts, m.wildcardEnd, Concat(init) + front + q);
    }
  }

  /** The matcher accepts exactly the pattern's language if and only if the pattern ends with
      a star, or has at most one part, or its last part cannot overlap the one before. */
  lemma ExactlyWhen(p: string)
    ensures (forall s :: Parse(p, true).Accepts(s) <==> Glob(p, s)) <==> Exact(Parse(p, true))
  {
    var m := Parse(p, true);
    ParseValid(p, true);
    if Exact(m) {
      forall s
        ensures m.Accepts(s) <==> Glob(p, s)
      {
        GlobIsPlacement(p, s);
        if m.Accepts(s) {
          AcceptedIsPlaced(m, s);
        } else if Glob(p, s) {
          GlobIsAccepted(p, s);
        }
      }
    } else {
      var s := OverlapIsAccepted(m);
      GlobIsPlacement(p, s);
      assert m.Accepts(s) && !Glob(p, s);
    }
  }

  /** As a*a on a. */
  lemma OverlapExample()
    ensures Parse("a*a", true).Accepts("a") && !Glob("a*a", "a")
  {
    var p, m := "a*a", Parse("a*a", true);
    PartsOfTail(p);
    PartsOfTail("*a");
    PartsOfTail("a");
    assert p[1..] == "*a" && "*a"[1..] == "a" && "a"[1..] == "";
    assert NonEmpty([""]) == [];
    assert m.parts == ["a", "a"];
    assert m.parts[..1] == ["a"];
    assert "a"[0..] == "a" && PlacedAt(0, ["a"], true, "a");
    Place(0, false, ["a"], true, "a");
    GlobIsPlacement(p, "a");
    assert Concat(["a"]) == "a" + Concat([]) && Concat(["a", "a"]) == "a" + Concat(["a"]);
    if Glob(p, "a") {
      PlacedNeedsRoom(false, ["a", "a"], false, "a");
    }
  }

  /** On ASCII the case-insensitive matcher is the case-sensitive one for the lower-cased
      pattern, on the lower-cased string. */
  method MatchPattern(p: string, caseSensitive: bool, s: string) returns (r: bool)
    requires !caseSensitive ==> Ascii(p) && Ascii(s)
    ensures caseSensitive ==> (r <==> Parse(p, true).Accepts(s))
    ensures !caseSensitive ==> (r <==> Parse(Lower(p), true).Accepts(Lower(s)))
  {
    var m := NewMatcher(p, caseSensitive);
    if !caseSensitive {
      LowerEnds(p);
      forall part | part in m.parts
        ensures Ascii(part) && Lower(part) == part
      {
        LoweredPart(p, part);
      }
    }
    r := Match(m, s);
  }

  lemma LowerEnds(p: string)
    ensures Starts(Lower(p)) == Starts(p) && Ends(Lower(p)) == Ends(p)
  {
  }

  lemma {:induction false} PiecesOf(p: string, piece: string)
    requires piece in Split(p)
    ensures forall c :: c in piece ==> c in p
    decreases |p|
  {
    if p != "" {
      var rest := Split(p[1..]);
      if piece in rest {
        PiecesOf(p[1..], piece);
      } else if piece != "" {
        PiecesOf(p[1..], rest[0]);
        assert piece == [p[0]] + rest[0];
      }
    }
  }

  lemma LoweredPart(p: string, part: string)
    requires Ascii(p) && part in NonEmpty(Split(Lower(p)))
    ensures Ascii(part) && Lower(part) == part
  {
    PiecesOf(Lower(p), part);
    forall i | 0 <= i < |part|
      ensures part[i] < 128 as char && LowerChar(part[i]) == part[i]
    {
      assert part[i] in part;
      var k :| 0 <= k < |p| && Lower(p)[k] == part[i];
    }
  }
}
