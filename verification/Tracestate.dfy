/** The tracestate header of W3C Trace Context, section 3.3: its linked list of entries
    (tracecontext.go), and how headers are parsed (module/apmhttp/traceheaders.go). */
module TracestateText {
  import opened Basics

  datatype Entry = Entry(key: string, value: string)

  const ELASTIC_KEY := "es"

  // ----- the order of entries -----

  /** The value of the last of the first n entries that is Elastic's. */
  function Elastic(es: seq<Entry>, n: nat): Option<string>
    requires n <= |es|
  {
    if n == 0 then None else if es[n - 1].key == ELASTIC_KEY then Some(es[n - 1].value) else Elastic(es, n - 1)
  }

  /** Those that are not, in their order. */
  function Others(es: seq<Entry>, n: nat): seq<Entry>
    requires n <= |es|
  {
    if n == 0 then [] else Others(es, n - 1) + if es[n - 1].key == ELASTIC_KEY then [] else [es[n - 1]]
  }

  /** The list made of entries: Elastic's comes first, once, with its last value. */
  function ListOf(es: seq<Entry>, n: nat): seq<Entry>
    requires n <= |es|
  {
    (if Elastic(es, n).Some? then [Entry(ELASTIC_KEY, Elastic(es, n).value)] else []) + Others(es, n)
  }

  lemma ListOfMore(es: seq<Entry>, n: nat)
    requires n < |es|
    ensures var list, e := ListOf(es, n), es[n];
            && (Elastic(es, n).Some? ==> list != [] && list[0].key == ELASTIC_KEY)
            && (Elastic(es, n + 1).Some? <==> e.key == ELASTIC_KEY || Elastic(es, n).Some?)
            && ListOf(es, n + 1) ==
               if e.key != ELASTIC_KEY then list + [e] else if Elastic(es, n).Some? then list[0 := e] else [e] + list
  {
  }

  lemma ElasticIsHead(es: seq<Entry>, n: nat)
    requires n <= |es|
    ensures |ListOf(es, n)| <= n && forall i :: 0 < i < |ListOf(es, n)| ==> ListOf(es, n)[i].key != ELASTIC_KEY
  {
    OthersAreOther(es, n);
    var list := ListOf(es, n);
    forall i | 0 < i < |list|
      ensures list[i].key != ELASTIC_KEY
    {
      assert list[i] in Others(es, n);
    }
  }

  lemma {:induction false} ListOfOrdered(es: seq<Entry>, n: nat)
    requires n <= |es| && forall i :: 0 < i < n ==> es[i].key != ELASTIC_KEY
    ensures ListOf(es, n) == es[..n]
  {
    if n > 0 {
      ListOfOrdered(es, n - 1);
      assert es[..n] == es[..n - 1] + [es[n - 1]];
      if n == 1 {
        assert ListOf(es, 1) == [es[0]];
      }
    }
  }

  /** A list is made of itself exactly if Elastic's entry is nowhere but at its head. */
  lemma ListOfSelf(es: seq<Entry>)
    ensures ListOf(es, |es|) == es <==> forall i :: 0 < i < |es| ==> es[i].key != ELASTIC_KEY
    ensures ListOf(ListOf(es, |es|), |ListOf(es, |es|)|) == ListOf(es, |es|)
  {
    var list := ListOf(es, |es|);
    ElasticIsHead(es, |es|);
    ListOfOrdered(list, |list|);
    if forall i :: 0 < i < |es| ==> es[i].key != ELASTIC_KEY {
      ListOfOrdered(es, |es|);
    }
  }

  lemma {:induction false} OthersAreOther(es: seq<Entry>, n: nat)
    requires n <= |es|
    ensures |Others(es, n)| <= n && forall e :: e in Others(es, n) ==> e.key != ELASTIC_KEY
    ensures Elastic(es, n).Some? ==> |Others(es, n)| < n
  {
    if n > 0 {
      OthersAreOther(es, n - 1);
    }
  }

  // ----- text -----

  /** Kv of an entry, and a list as it is printed. */
  function KeyValue(e: Entry): string {
    e.key + "=" + e.value
  }

  function Print(es: seq<Entry>): string {
    if es == [] then ""
    else if |es| == 1 then KeyValue(es[0])
    else KeyValue(es[0]) + "," + Print(es[1..])
  }

  predicate IsSpace(c: char) {
    c == ' ' || '\t' <= c <= '\r'
  }

  function TrimLeft(s: string): (t: string)
    ensures |t| <= |s| && (t != "" ==> !IsSpace(t[0]))
  {
    if s != "" && IsSpace(s[0]) then TrimLeft(s[1..]) else s
  }

  function TrimRight(s: string): (t: string)
    ensures t <= s && (t != "" ==> !IsSpace(t[|t| - 1]))
  {
    if s != "" && IsSpace(s[|s| - 1]) then TrimRight(s[..|s| - 1]) else s
  }

  /** strings.TrimSpace, on ASCII */
  function TrimSpace(s: string): (t: string)
    ensures |t| <= |s|
    ensures t != "" ==> !IsSpace(t[0]) && !IsSpace(t[|t| - 1])
  {
    TrimRight(TrimLeft(s))
  }

  /** strings.IndexRune */
  function IndexRune(s: string, c: char): (i: int)
    ensures -1 <= i < |s|
    ensures i == -1 ==> c !in s
    ensures i >= 0 ==> s[i] == c && c !in s[..i]
  {
    if s == "" then -1
    else if s[0] == c then 0
    else
      var i := IndexRune(s[1..], c);
      if i == -1 then -1
      else
        assert s[..i + 1] == [s[0]] + s[1..][..i];
        i + 1
  }

  function ParseEntry(kv: string): Option<Entry> {
    var equal := IndexRune(kv, '=');
    if equal == -1 then None else Some(Entry(kv[..equal], kv[equal + 1..]))
  }

  function Cons(e: Option<Entry>, rest: Option<seq<Entry>>): Option<seq<Entry>> {
    if e == None || rest == None then None else Some([e.value] + rest.value)
  }

  function ParseTrimmed(t: string): Option<seq<Entry>>
    decreases |t|
  {
    if t == "" then Some([])
    else
      var comma := IndexRune(t, ',');
      if comma == -1 then Cons(ParseEntry(t), Some([]))
      else Cons(ParseEntry(TrimSpace(t[..comma])), ParseTrimmed(TrimSpace(t[comma + 1..])))
  }

  lemma OneEntry(h: string, comma: int, kv: string, rest: string)
    requires h != "" && comma == IndexRune(h, ',')
    requires if comma == -1 then kv == h && rest == "" else kv == TrimSpace(h[..comma]) && rest == h[comma + 1..]
    ensures ParseTrimmed(h) == Cons(ParseEntry(kv), ParseTrimmed(TrimSpace(rest)))
  {
    if comma == -1 {
      assert ParseTrimmed(TrimSpace(rest)) == Some([]);
    }
  }

  /** The entries of one header value. */
  function ParseValue(h: string): Option<seq<Entry>> {
    ParseTrimmed(TrimSpace(h))
  }

  function Append(a: Option<seq<Entry>>, b: Option<seq<Entry>>): Option<seq<Entry>> {
    if a == None || b == None then None else Some(a.value + b.value)
  }

  /** The entries of the first n header values. */
  function ParseValues(hs: seq<string>, n: nat): Option<seq<Entry>>
    requires n <= |hs|
  {
    if n == 0 then Some([]) else Append(ParseValues(hs, n - 1), ParseValue(hs[n - 1]))
  }

  // ----- validity -----

  predicate KeyChar(c: char) {
    'a' <= c <= 'z' || '0' <= c <= '9' || c == '_' || c == '*' || c == '/' || c == '-'
  }

  predicate KeyChars(s: string) {
    forall c :: c in s ==> KeyChar(c)
  }

  /** tracestateKeyRegexp */
  predicate ValidKey(k: string) {
    && k != "" && 'a' <= k[0] <= 'z'
    && (|| (|k| <= 256 && KeyChars(k[1..]))
        || exists at | 0 < at < |k| - 1 ::
             && k[at] == '@' && at <= 241 && |k| - at - 2 <= 13
             && KeyChars(k[1..at]) && 'a' <= k[at + 1] <= 'z' && KeyChars(k[at + 2..]))
  }

  /** nblkchr */
  predicate NonBlank(c: char) {
    '!' <= c <= '+' || '-' <= c <= '<' || '>' <= c <= '~'
  }

  predicate ValidValue(v: string) {
    && 0 < |v| <= 256 && NonBlank(v[|v| - 1])
    && forall i :: 0 <= i < |v| - 1 ==> v[i] == ' ' || NonBlank(v[i])
  }

  predicate ValidEntry(e: Entry) {
    (e.key == ELASTIC_KEY || ValidKey(e.key)) && ValidValue(e.value)
  }

  lemma KeyHasNoSeparator(k: string)
    requires ValidKey(k) || k == ELASTIC_KEY
    ensures k != "" && !IsSpace(k[0]) && ',' !in k && '=' !in k
  {
    if ValidKey(k) {
      forall i | 0 <= i < |k|
        ensures KeyChar(k[i]) || k[i] == '@'
      {
        if i > 0 {
          if |k| <= 256 && KeyChars(k[1..]) {
            assert k[i] == k[1..][i - 1];
          } else {
            var at :| 0 < at < |k| - 1 && k[at] == '@' && at <= 241 && |k| - at - 2 <= 13 &&
                      KeyChars(k[1..at]) && 'a' <= k[at + 1] <= 'z' && KeyChars(k[at + 2..]);
            if i < at {
              assert k[i] == k[1..at][i - 1];
            } else if i > at + 1 {
              assert k[i] == k[at + 2..][i - at - 2];
            }
          }
        }
      }
    }
  }

  lemma ValueHasNoComma(v: string)
    requires ValidValue(v)
    ensures v != "" && !IsSpace(v[|v| - 1]) && ',' !in v
  {
  }

  /** What printing and parsing need of an entry. */
  predicate Plain(e: Entry) {
    && e.key != "" && !IsSpace(e.key[0]) && ',' !in e.key && '=' !in e.key
    && e.value != "" && !IsSpace(e.value[|e.value| - 1]) && ',' !in e.value
  }

  lemma ValidIsPlain(e: Entry)
    requires ValidEntry(e)
    ensures Plain(e)
  {
    KeyHasNoSeparator(e.key);
    ValueHasNoComma(e.value);
  }

  // ----- round trips -----

  lemma Trimmed(s: string)
    requires s != "" ==> !IsSpace(s[0]) && !IsSpace(s[|s| - 1])
    ensures TrimSpace(s) == s
  {
  }

  lemma {:induction false} FirstOf(s: string, c: char, t: string)
    requires c !in s
    ensures IndexRune(s + [c] + t, c) == |s|
  {
    if s != "" {
      FirstOf(s[1..], c, t);
      assert s[0] in s;
      assert (s + [c] + t)[1..] == s[1..] + [c] + t;
    }
  }

  lemma {:induction false} NotIn(s: string, c: char)
    requires c !in s
    ensures IndexRune(s, c) == -1
  {
    if s != "" {
      NotIn(s[1..], c);
    }
  }

  lemma EntryRoundTrip(e: Entry)
    requires Plain(e)
    ensures ParseEntry(KeyValue(e)) == Some(e) && ',' !in KeyValue(e) && TrimSpace(KeyValue(e)) == KeyValue(e)
    ensures KeyValue(e) != "" && !IsSpace(KeyValue(e)[0]) && !IsSpace(KeyValue(e)[|KeyValue(e)| - 1])
  {
    var kv := KeyValue(e);
    assert kv == e.key + ['='] + e.value;
    FirstOf(e.key, '=', e.value);
    assert kv[..|e.key|] == e.key && kv[|e.key| + 1..] == e.value;
    Trimmed(kv);
  }

  lemma {:induction false} PrintEnds(es: seq<Entry>)
    requires es != [] && forall i :: 0 <= i < |es| ==> Plain(es[i])
    ensures Print(es) != "" && !IsSpace(Print(es)[0]) && !IsSpace(Print(es)[|Print(es)| - 1])
  {
    EntryRoundTrip(es[0]);
    if |es| > 1 {
      PrintEnds(es[1..]);
    }
  }

  lemma ParseLast(h: string)
    requires TrimSpace(h) != "" && ',' !in TrimSpace(h)
    ensures ParseValue(h) == Cons(ParseEntry(TrimSpace(h)), Some([]))
  {
    NotIn(TrimSpace(h), ',');
  }

  lemma ParseFirst(h: string, kv: string, rest: string)
    requires TrimSpace(h) == kv + [','] + rest && ',' !in kv
    ensures ParseValue(h) == Cons(ParseEntry(TrimSpace(kv)), ParseValue(rest))
  {
    var t := TrimSpace(h);
    FirstOf(kv, ',', rest);
    assert t[..|kv|] == kv && t[|kv| + 1..] == rest;
  }

  lemma PrintMore(es: seq<Entry>)
    requires |es| > 1
    ensures Print(es) == KeyValue(es[0]) + [','] + Print(es[1..])
  {
  }

  lemma ParseNothing()
    ensures ParseValue(Print([])) == Some([])
  {
    assert ParseTrimmed("") == Some([]);
  }

  lemma PrintedStep(es: seq<Entry>)
    requires es != [] && forall i :: 0 <= i < |es| ==> Plain(es[i])
    requires ParseValue(Print(es[1..])) == Some(es[1..])
    ensures ParseValue(Print(es)) == Cons(Some(es[0]), Some(es[1..]))
  {
    var kv, rest := KeyValue(es[0]), es[1..];
    EntryRoundTrip(es[0]);
    PrintEnds(es);
    Trimmed(Print(es));
    if rest == [] {
      ParseLast(kv);
    } else {
      PrintMore(es);
      ParseFirst(Print(es), kv, Print(rest));
    }
  }

  /** A list of entries is read back as it was printed. */
  lemma {:induction false} ParsePrinted(es: seq<Entry>)
    requires forall i :: 0 <= i < |es| ==> Plain(es[i])
    ensures ParseValue(Print(es)) == Some(es)
  {
    hide Print, Plain, ParseValue;
    if es == [] {
      ParseNothing();
    } else {
      ParsePrinted(es[1..]);
      PrintedStep(es);
      assert [es[0]] + es[1..] == es;
    }
  }

  /** A valid state is read back from its header: the same list. */
  lemma StateRoundTrip(es: seq<Entry>)
    requires forall e :: e in es ==> ValidEntry(e)
    ensures var list := ListOf(es, |es|);
            && ParseValue(Print(list)) == Some(list) && ListOf(list, |list|) == list
  {
    var list := ListOf(es, |es|);
    ListOfSelf(es);
    ListEntries(es, |es|);
    forall i | 0 <= i < |list|
      ensures Plain(list[i])
    {
      assert list[i] in list;
      ValidIsPlain(list[i]);
    }
    ParsePrinted(list);
  }

  lemma {:induction false} ListEntries(es: seq<Entry>, n: nat)
    requires n <= |es|
    ensures forall e :: e in ListOf(es, n) ==> e in es
  {
    if n > 0 {
      ListEntries(es, n - 1);
      forall e | e in ListOf(es, n)
        ensures e in es
      {
        if e != es[n - 1] {
          assert e in ListOf(es, n - 1);
        }
      }
    }
  }

  // ----- several header values -----

  /** A value that is not blank and does not end with a comma. */
  predicate Clean(h: string) {
    var t := TrimSpace(h);
    t != "" && t[|t| - 1] != ','
  }

  lemma {:induction false} LeftOf(s: string, c: char, t: string)
    requires !IsSpace(c)
    ensures TrimLeft(s + [c] + t) == TrimLeft(s) + [c] + t
  {
    if s != "" && IsSpace(s[0]) {
      LeftOf(s[1..], c, t);
      assert (s + [c] + t)[1..] == s[1..] + [c] + t;
    }
  }

  lemma {:induction false} RightOf(s: string, c: char, t: string)
    requires !IsSpace(c)
    ensures TrimRight(s + [c] + t) == s + [c] + TrimRight(t)
    decreases |t|
  {
    var u := s + [c] + t;
    if t != "" && IsSpace(t[|t| - 1]) {
      RightOf(s, c, t[..|t| - 1]);
      assert u[..|u| - 1] == s + [c] + t[..|t| - 1];
    } else if t == "" {
      assert u[|u| - 1] == c;
    } else {
      assert u[|u| - 1] == t[|t| - 1];
    }
  }

  /** A comma stops trimming on both sides. */
  lemma TrimAround(a: string, b: string)
    ensures TrimSpace(a + "," + b) == TrimLeft(a) + [','] + TrimRight(b)
  {
    assert a + "," + b == a + [','] + b;
    LeftOf(a, ',', b);
    RightOf(TrimLeft(a), ',', b);
  }

  lemma {:induction false} TrimLeftRight(s: string)
    ensures TrimLeft(TrimRight(s)) == TrimRight(TrimLeft(s))
  {
    if s == "" {
    } else if IsSpace(s[0]) {
      TrimLeftRight(s[1..]);
      TrimRightOfSpace(s[0], s[1..]);
      assert [s[0]] + s[1..] == s;
    } else {
      RightOf("", s[0], s[1..]);
      assert "" + [s[0]] + s[1..] == s;
    }
  }

  /** Trimming a space and more on the right: all of it goes, or the space stays. */
  lemma {:induction false} TrimRightOfSpace(c: char, s: string)
    requires IsSpace(c)
    ensures TrimRight([c] + s) == if TrimRight(s) == "" then "" else [c] + TrimRight(s)
    decreases |s|
  {
    var u := [c] + s;
    if s == "" {
      assert u[..0] == "";
      assert TrimRight(u) == TrimRight(u[..0]);
    } else if IsSpace(s[|s| - 1]) {
      TrimRightOfSpace(c, s[..|s| - 1]);
      assert u[..|u| - 1] == [c] + s[..|s| - 1];
    }
  }

  lemma TrimAgain(s: string)
    ensures TrimSpace(TrimRight(s)) == TrimSpace(s) && TrimSpace(TrimLeft(s)) == TrimSpace(s)
  {
    TrimLeftRight(s);
    Idempotent(s);
  }

  lemma {:induction false} Idempotent(s: string)
    ensures TrimRight(TrimRight(s)) == TrimRight(s) && TrimLeft(TrimLeft(s)) == TrimLeft(s)
  {
    var l, r := TrimLeft(s), TrimRight(s);
    assert l != "" ==> !IsSpace(l[0]);
    assert r != "" ==> !IsSpace(r[|r| - 1]);
  }

  lemma SameTrimmed(a: string, b: string)
    requires TrimSpace(a) == TrimSpace(b)
    ensures ParseValue(a) == ParseValue(b) && Clean(a) == Clean(b)
  {
  }

  lemma {:induction false} RightKeeps(s: string)
    requires s != "" && !IsSpace(s[0])
    ensures TrimRight(s) != ""
    decreases |s|
  {
    if IsSpace(s[|s| - 1]) {
      RightKeeps(s[..|s| - 1]);
    }
  }

  /** What comes after the first comma decides whether the whole is clean. */
  lemma CleanRest(a: string, kv: string, rest: string)
    requires TrimLeft(a) == kv + [','] + rest
    ensures TrimSpace(a) == kv + [','] + TrimRight(rest) && Clean(a) == Clean(rest)
  {
    RightOf(kv, ',', rest);
    TrimLeftRight(rest);
    var r := TrimRight(rest);
    if r != "" {
      LeftKeeps(r);
    }
  }

  lemma {:induction false} LeftKeeps(s: string)
    requires s != "" && !IsSpace(s[|s| - 1])
    ensures TrimLeft(s) != "" && TrimLeft(s)[|TrimLeft(s)| - 1] == s[|s| - 1]
  {
    if IsSpace(s[0]) {
      LeftKeeps(s[1..]);
    }
  }

  lemma ConsAppend(e: Option<Entry>, a: Option<seq<Entry>>, b: Option<seq<Entry>>)
    ensures Cons(e, Append(a, b)) == Append(Cons(e, a), b)
    ensures Cons(e, b) == Append(Cons(e, Some([])), b)
  {
    if e.Some? && a.Some? && b.Some? {
      assert [e.value] + (a.value + b.value) == [e.value] + a.value + b.value;
    }
    if e.Some? && b.Some? {
      assert [e.value] + [] + b.value == [e.value] + b.value;
    }
  }

  lemma JoinedBlank(a: string, b: string)
    requires TrimSpace(a) == ""
    ensures ParseValue(a + "," + b) == None
  {
    if TrimLeft(a) != "" {
      RightKeeps(TrimLeft(a));
    }
    TrimAround(a, b);
    assert "" + [','] + TrimRight(b) == [','] + TrimRight(b);
    ParseFirst(a + "," + b, "", TrimRight(b));
  }

  lemma JoinedSingle(a: string, b: string)
    requires TrimSpace(a) != "" && ',' !in TrimLeft(a)
    ensures Clean(a) && ParseValue(a + "," + b) == Append(ParseValue(a), ParseValue(b))
  {
    var l := TrimLeft(a);
    assert TrimRight(l) <= l;
    TrimAround(a, b);
    TrimAgain(a);
    TrimAgain(b);
    SameTrimmed(TrimRight(b), b);
    ParseFirst(a + "," + b, l, TrimRight(b));
    ParseLast(a);
    ConsAppend(ParseEntry(TrimSpace(a)), None, ParseValue(b));
  }

  lemma ParseMore(a: string, kv: string, rest: string)
    requires TrimLeft(a) == kv + [','] + rest && ',' !in kv
    ensures ParseValue(a) == Cons(ParseEntry(TrimSpace(kv)), ParseValue(rest)) && Clean(a) == Clean(rest)
  {
    CleanRest(a, kv, rest);
    ParseFirst(a, kv, TrimRight(rest));
    TrimAgain(rest);
    SameTrimmed(TrimRight(rest), rest);
  }

  lemma Regroup(kv: string, rest: string, r: string)
    ensures kv + [','] + rest + [','] + r == kv + [','] + (rest + "," + r)
  {
    assert rest + "," + r == rest + [','] + r;
    assert kv + [','] + rest + [','] + r == kv + [','] + (rest + [','] + r);
  }

  lemma JoinedMore(a: string, b: string, kv: string, rest: string)
    requires TrimLeft(a) == kv + [','] + rest && ',' !in kv
    ensures ParseValue(a + "," + b) == Cons(ParseEntry(TrimSpace(kv)), ParseValue(rest + "," + TrimRight(b)))
  {
    TrimAround(a, b);
    Regroup(kv, rest, TrimRight(b));
    ParseFirst(a + "," + b, kv, rest + "," + TrimRight(b));
  }

  /** Two header values joined with a comma give what they give one after the other exactly
      if the first is clean, and else an error. */
  lemma {:induction false} Joined(a: string, b: string)
    ensures ParseValue(a + "," + b) == if Clean(a) then Append(ParseValue(a), ParseValue(b)) else None
    decreases |a|
  {
    var l := TrimLeft(a);
    var c := IndexRune(l, ',');
    if TrimSpace(a) == "" {
      JoinedBlank(a, b);
    } else if c == -1 {
      JoinedSingle(a, b);
    } else {
      var kv, rest := l[..c], l[c + 1..];
      assert l == kv + [','] + rest;
      ParseMore(a, kv, rest);
      JoinedMore(a, b, kv, rest);
      Joined(rest, TrimRight(b));
      TrimAgain(b);
      SameTrimmed(TrimRight(b), b);
      ConsAppend(ParseEntry(TrimSpace(kv)), ParseValue(rest), ParseValue(b));
    }
  }

  /** The first n header values, joined with commas. */
  function Join(hs: seq<string>, n: nat): string
    requires 0 < n <= |hs|
  {
    if n == 1 then hs[0] else Join(hs, n - 1) + "," + hs[n - 1]
  }

  lemma CleanJoined(a: string, b: string)
    requires Clean(b)
    ensures Clean(a + "," + b)
  {
    TrimAround(a, b);
    TrimLeftRight(b);
    var r := TrimRight(b);
    if r != "" {
      LeftKeeps(r);
    }
  }

  lemma OneValue(hs: seq<string>)
    requires hs != []
    ensures ParseValues(hs, 1) == ParseValue(hs[0])
  {
    var none, v := ParseValues(hs, 0), ParseValue(hs[0]);
    assert none == Some([]);
    assert ParseValues(hs, 1) == Append(none, v);
    if v.Some? {
      assert [] + v.value == v.value;
    }
  }

  /** Once a value fails, they all do. */
  lemma {:induction false} LaterFails(hs: seq<string>, k: nat, n: nat)
    requires k <= n <= |hs| && ParseValues(hs, k) == None
    ensures ParseValues(hs, n) == None
    decreases n - k
  {
    if n > k {
      OneFails(hs, k);
      LaterFails(hs, k + 1, n);
    }
  }

  lemma OneFails(hs: seq<string>, k: nat)
    requires k < |hs| && ParseValues(hs, k) == None
    ensures ParseValues(hs, k + 1) == None
  {
    var v := ParseValue(hs[k]);
    assert ParseValues(hs, k + 1) == Append(None, v);
  }

  /** Any distribution of the entries over clean header values gives what the one joined
      value gives. */
  lemma {:induction false} JoinedAll(hs: seq<string>, n: nat)
    requires 0 < n <= |hs| && forall i :: 0 <= i < n ==> Clean(hs[i])
    ensures ParseValue(Join(hs, n)) == ParseValues(hs, n) && Clean(Join(hs, n))
  {
    if n == 1 {
      OneValue(hs);
    } else {
      JoinedAll(hs, n - 1);
      Joined(Join(hs, n - 1), hs[n - 1]);
      CleanJoined(Join(hs, n - 1), hs[n - 1]);
    }
  }
}

module TracestateList {
  import opened TracestateText

  class TraceStateEntry {
    var next: TraceStateEntry?
    var key: string
    var value: string

    constructor (e: Entry)
      ensures key == e.key && value == e.value && next == null
    {
      key, value, next := e.key, e.value, null;
    }
  }

  /** The list from head on is these nodes, which hold these entries. */
  ghost predicate Linked(head: TraceStateEntry?, nodes: seq<TraceStateEntry>, es: seq<Entry>)
    reads nodes
  {
    && |nodes| == |es| && head == At(nodes, 0)
    && (forall i, j :: 0 <= i < j < |nodes| ==> nodes[i] != nodes[j])
    && forall i :: 0 <= i < |nodes| ==> nodes[i].next == At(nodes, i + 1) && Entry(nodes[i].key, nodes[i].value) == es[i]
  }

  ghost function At(nodes: seq<TraceStateEntry>, i: nat): TraceStateEntry? {
    if i < |nodes| then nodes[i] else null
  }

  ghost function Last(nodes: seq<TraceStateEntry>): TraceStateEntry? {
    if nodes == [] then null else nodes[|nodes| - 1]
  }

  ghost predicate In(nodes: seq<TraceStateEntry>, made: set<TraceStateEntry>) {
    forall i :: 0 <= i < |nodes| ==> nodes[i] in made
  }

  /** What is built so far: a list of entries, its last node, and the nodes made. */
  ghost predicate Built(head: TraceStateEntry?, last: TraceStateEntry?, nodes: seq<TraceStateEntry>,
                        made: set<TraceStateEntry>, es: seq<Entry>)
    reads nodes
  {
    Linked(head, nodes, es) && last == Last(nodes) && In(nodes, made)
  }
}

module Tracestate {
  import opened Basics
  import opened TracestateText
  import opened TracestateList

  const MAX_ENTRIES := 32

  /** A new entry in front of the list. */
  method PushFront(e: Entry, head: TraceStateEntry?, ghost nodes: seq<TraceStateEntry>, ghost es: seq<Entry>)
    returns (node: TraceStateEntry)
    requires Linked(head, nodes, es)
    ensures fresh(node) && Linked(node, [node] + nodes, [e] + es)
  {
    node := new TraceStateEntry(e);
    node.next := head;
    ghost var all := [node] + nodes;
    forall i | 0 <= i < |all|
      ensures all[i].next == At(all, i + 1)
    {
      assert i > 0 ==> all[i] == nodes[i - 1] && nodes[i - 1].next == At(nodes, i);
    }
  }

  /** The head gets another value. */
  method SetValue(head: TraceStateEntry, value: string, ghost nodes: seq<TraceStateEntry>, ghost es: seq<Entry>)
    requires Linked(head, nodes, es)
    modifies head`value
    ensures es != [] && Linked(head, nodes, es[0 := Entry(es[0].key, value)])
  {
    head.value := value;
  }

  /** A new entry behind the last one. */
  method PushBack(e: Entry, head: TraceStateEntry?, last: TraceStateEntry?, ghost nodes: seq<TraceStateEntry>,
                  ghost es: seq<Entry>)
    returns (head': TraceStateEntry, node: TraceStateEntry)
    requires Linked(head, nodes, es) && last == Last(nodes)
    modifies if last != null then {last} else {}
    ensures fresh(node) && Linked(head', nodes + [node], es + [e])
  {
    node := new TraceStateEntry(e);
    if last == null {
      head' := node;
    } else {
      last.next := node;
      head' := head;
    }
  }

  /** Elastic's entry goes to the head, or gives its value to the one there. */
  method AddElastic(head: TraceStateEntry?, last: TraceStateEntry?, haveElastic: bool, ghost nodes: seq<TraceStateEntry>,
                    ghost made: set<TraceStateEntry>, ghost es: seq<Entry>, e: Entry)
    returns (head': TraceStateEntry, last': TraceStateEntry, ghost nodes': seq<TraceStateEntry>,
             ghost made': set<TraceStateEntry>)
    requires Built(head, last, nodes, made, es) && (haveElastic ==> es != [] && es[0].key == e.key)
    modifies made
    ensures Built(head', last', nodes', made', if haveElastic then es[0 := e] else [e] + es) && fresh(made' - made)
  {
    if haveElastic {
      SetValue(head, e.value, nodes, es);
      head', last', nodes', made' := head, last, nodes, made;
    } else {
      var node := PushFront(e, head, nodes, es);
      head', last', nodes', made' := node, if last == null then node else last, [node] + nodes, made + {node};
    }
  }

  /** Any other entry goes behind the last one. */
  method AddOther(head: TraceStateEntry?, last: TraceStateEntry?, ghost nodes: seq<TraceStateEntry>,
                  ghost made: set<TraceStateEntry>, ghost es: seq<Entry>, e: Entry)
    returns (head': TraceStateEntry, last': TraceStateEntry, ghost nodes': seq<TraceStateEntry>,
             ghost made': set<TraceStateEntry>)
    requires Built(head, last, nodes, made, es)
    modifies made
    ensures Built(head', last', nodes', made', es + [e]) && fresh(made' - made)
  {
    head', last' := PushBack(e, head, last, nodes, es);
    nodes', made' := nodes + [last'], made + {last'};
  }

  lemma NothingBuilt(entries: seq<Entry>)
    ensures Built(null, null, [], {}, ListOf(entries, 0))
  {
  }

  /** The body of the loop of NewTraceState. */
  method Add(head: TraceStateEntry?, last: TraceStateEntry?, haveElastic: bool, ghost nodes: seq<TraceStateEntry>,
             ghost made: set<TraceStateEntry>, ghost entries: seq<Entry>, ghost n: nat, e: Entry)
    returns (head': TraceStateEntry, last': TraceStateEntry, ghost nodes': seq<TraceStateEntry>,
             ghost made': set<TraceStateEntry>)
    requires n < |entries| && entries[n] == e && haveElastic == Elastic(entries, n).Some?
    requires Built(head, last, nodes, made, ListOf(entries, n))
    modifies made
    ensures Built(head', last', nodes', made', ListOf(entries, n + 1)) && fresh(made' - made)
  {
    ghost var es := ListOf(entries, n);
    ListOfMore(entries, n);
    if e.key == ELASTIC_KEY {
      head', last', nodes', made' := AddElastic(head, last, haveElastic, nodes, made, es, e);
    } else {
      head', last', nodes', made' := AddOther(head, last, nodes, made, es, e);
    }
  }

  /** NewTraceState: the list has Elastic's entry first, once and with its last value, and
      then the others in their order. */
  method NewTraceState(entries: seq<Entry>) returns (head: TraceStateEntry?, ghost nodes: seq<TraceStateEntry>)
    ensures fresh(nodes) && Linked(head, nodes, ListOf(entries, |entries|))
  {
    hide Linked, ListOf;
    head, nodes := null, [];
    var last: TraceStateEntry?, haveElastic := null, false;
    ghost var made: set<TraceStateEntry> := {};
    NothingBuilt(entries);
    for i := 0 to |entries|
      invariant fresh(made) && Built(head, last, nodes, made, ListOf(entries, i))
      invariant haveElastic == Elastic(entries, i).Some?
    {
      head, last, nodes, made := Add(head, last, haveElastic, nodes, made, entries, i, entries[i]);
      haveElastic := haveElastic || entries[i].key == ELASTIC_KEY;
    }
  }

  /** String: the entries of the list, with commas between them. */
  method String(head: TraceStateEntry?, ghost nodes: seq<TraceStateEntry>, ghost es: seq<Entry>) returns (s: string)
    requires Linked(head, nodes, es)
    ensures s == Print(es)
  {
    if head == null {
      return "";
    }
    s := KeyValue(Entry(head.key, head.value));
    assert head == nodes[0] && nodes[0].next == At(nodes, 1);
    var e := head.next;
    ghost var i := 1;
    while e != null
      invariant 1 <= i <= |nodes| && e == At(nodes, i)
      invariant s + (if i < |nodes| then "," + Print(es[i..]) else "") == Print(es)
      decreases |nodes| - i
    {
      s := s + ",";
      s := s + KeyValue(Entry(e.key, e.value));
      assert es[i..][1..] == es[i + 1..];
      e := e.next;
      i := i + 1;
    }
  }

  /** Validate: at most 32 entries, all of them valid, where whether Elastic's is was found
      when the state was made. */
  method Validate(head: TraceStateEntry?, ghost nodes: seq<TraceStateEntry>, ghost es: seq<Entry>, elasticValid: bool)
    returns (ok: bool)
    requires Linked(head, nodes, es)
    ensures ok <==>
            && |es| <= MAX_ENTRIES
            && forall e :: e in es ==> if e.key == ELASTIC_KEY then elasticValid else ValidEntry(e)
  {
    var e := head;
    var i := 0;
    while e != null
      invariant 0 <= i <= |nodes| && i <= MAX_ENTRIES && e == At(nodes, i)
      invariant forall k :: 0 <= k < i ==> if es[k].key == ELASTIC_KEY then elasticValid else ValidEntry(es[k])
      decreases |nodes| - i
    {
      if i == MAX_ENTRIES {
        return false;
      }
      assert es[i] in es;
      if e.key == ELASTIC_KEY {
        if !elasticValid {
          return false;
        }
      } else {
        if !ValidEntry(Entry(e.key, e.value)) {
          return false;
        }
      }
      e := e.next;
      i := i + 1;
    }
    return true;
  }

  /** The loop over one header value. */
  method ParseInto(entries: seq<Entry>, value: string) returns (r: Option<seq<Entry>>)
    ensures r == Append(Some(entries), ParseValue(value))
  {
    var es := entries;
    ghost var whole := ParseValue(value);
    var h := TrimSpace(value);
    while h != ""
      invariant Append(Some(entries), whole) == Append(Some(es), ParseTrimmed(h))
      decreases |h|
    {
      var kv := h;
      var rest := "";
      var comma := IndexRune(h, ',');
      if comma != -1 {
        kv := TrimSpace(h[..comma]);
        rest := h[comma + 1..];
      }
      var e := ParseEntry(kv);
      OneEntry(h, comma, kv, rest);
      if e == None {
        return None;
      }
      AppendCons(es, e.value, ParseTrimmed(TrimSpace(rest)));
      es := es + [e.value];
      h := TrimSpace(rest);
    }
    assert es + [] == es;
    return Some(es);
  }

  lemma AppendCons(es: seq<Entry>, e: Entry, rest: Option<seq<Entry>>)
    ensures Append(Some(es), Cons(Some(e), rest)) == Append(Some(es + [e]), rest)
  {
    if rest.Some? {
      assert es + ([e] + rest.value) == es + [e] + rest.value;
    }
  }

  /** ParseTracestateHeader, up to the call of NewTraceState. */
  method ParseTracestateHeader(hs: seq<string>) returns (entries: Option<seq<Entry>>)
    ensures entries == ParseValues(hs, |hs|)
  {
    entries := Some([]);
    for i := 0 to |hs|
      invariant entries.Some? && ParseValues(hs, i) == entries
    {
      entries := ParseInto(entries.value, hs[i]);
      if entries == None {
        LaterFails(hs, i + 1, |hs|);
        return;
      }
    }
  }
}
