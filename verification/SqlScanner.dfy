/** The lexical structure of SQL as the scanner sees it (sqlutil/scanner.go), as functions
    of the text and a position. */
module SqlText {
  import opened Basics
  import opened Runes

  datatype Token =
    | OTHER | EOF | COMMENT | IDENT | NUMBER | STRING | PERIOD | COMMA | LPAREN | RPAREN
    | AS | CALL | DELETE | FROM | INSERT | INTO | OR | REPLACE | SELECT | SET | TABLE | TRUNCATE | UPDATE

  /** Unicode's classes of runes. */
  datatype Classes = Classes(letter: int -> bool, digit: int -> bool, space: int -> bool)

  const RUNE_ERROR := 0xFFFD

  /** What utf8.DecodeRuneInString makes of the bytes at i. */
  function Rune(s: seq<byte>, i: nat): (r: int)
    ensures i < |s| && Ascii(s[i]) ==> r == s[i]
  {
    if i >= |s| || !WellFormedAt(s, i) then RUNE_ERROR
    else match Announced(s[i])
      case 2 => (s[i] - 0xC0) * 0x40 + (s[i + 1] - 0x80)
      case 3 => (s[i] - 0xE0) * 0x1000 + (s[i + 1] - 0x80) * 0x40 + (s[i + 2] - 0x80)
      case 4 => (s[i] - 0xF0) * 0x40000 + (s[i + 1] - 0x80) * 0x1000 + (s[i + 2] - 0x80) * 0x40 + (s[i + 3] - 0x80)
      case _ => if s[i] < 0x80 then s[i] else RUNE_ERROR
  }

  /** There is a rune at i. */
  predicate Ok(s: seq<byte>, i: nat) {
    Rune(s, i) != RUNE_ERROR
  }

  /** utf8.RuneLen */
  function RuneLen(r: int): int {
    if r < 0 then -1
    else if r < 0x80 then 1
    else if r < 0x800 then 2
    else if 0xD800 <= r <= 0xDFFF then -1
    else if r <= 0xFFFF then 3
    else if r <= 0x10FFFF then 4 else -1
  }

  /** Going back by the length of a rune undoes reading it; its value is below 0x80 exactly
      if it is one byte, of that value. */
  lemma RuneLenIsWidth(s: seq<byte>, i: nat)
    requires Ok(s, i)
    ensures i < |s| && RuneLen(Rune(s, i)) == Width(s, i)
    ensures Rune(s, i) < 0x80 <==> Ascii(s[i])
    ensures Ascii(s[i]) ==> Rune(s, i) == s[i]
  {
  }

  /** Where the rune at i ends. */
  function Past(s: seq<byte>, i: nat): (j: nat)
    requires Ok(s, i)
    ensures i < j <= |s|
  {
    i + Width(s, i)
  }

  /** Where a search stops, and whether it found what it was for. */
  datatype Found = Found(ok: bool, at: nat)

  predicate Is(s: seq<byte>, i: nat, c: char) {
    i < |s| && s[i] == c as int
  }

  // ----- where the parts of tokens end -----

  function SkipSpaces(s: seq<byte>, c: Classes, i: nat): (f: Found)
    requires i <= |s|
    ensures i <= f.at <= |s| && f.ok == Ok(s, f.at) && (f.ok ==> !c.space(Rune(s, f.at)))
    decreases |s| - i
  {
    if Ok(s, i) && c.space(Rune(s, i)) then SkipSpaces(s, c, Past(s, i)) else Found(Ok(s, i), i)
  }

  predicate InWord(c: Classes, r: int) {
    c.letter(r) || c.digit(r) || r == '_' as int || r == '$' as int
  }

  function WordEnd(s: seq<byte>, c: Classes, i: nat): (j: nat)
    requires i <= |s|
    ensures i <= j <= |s|
    decreases |s| - i
  {
    if Ok(s, i) && InWord(c, Rune(s, i)) then WordEnd(s, c, Past(s, i)) else i
  }

  /** The word from i on has letters only. */
  predicate Letters(s: seq<byte>, c: Classes, i: nat)
    requires i <= |s|
    decreases |s| - i
  {
    Ok(s, i) && InWord(c, Rune(s, i)) ==> c.letter(Rune(s, i)) && Letters(s, c, Past(s, i))
  }

  function DigitsEnd(s: seq<byte>, c: Classes, i: nat): (j: nat)
    requires i <= |s|
    ensures i <= j <= |s|
    decreases |s| - i
  {
    if Ok(s, i) && c.digit(Rune(s, i)) then DigitsEnd(s, c, Past(s, i)) else i
  }

  predicate Exponent(s: seq<byte>, i: nat) {
    Is(s, i, 'e') || Is(s, i, 'E')
  }

  predicate Sign(s: seq<byte>, i: nat) {
    Is(s, i, '+') || Is(s, i, '-')
  }

  function NumberEnd(s: seq<byte>, c: Classes, i: nat, period: bool, exponent: bool): (j: nat)
    requires i <= |s|
    ensures i <= j <= |s|
    decreases |s| - i
  {
    if Ok(s, i) && c.digit(Rune(s, i)) then NumberEnd(s, c, Past(s, i), period, exponent)
    else if Is(s, i, '.') && !period then NumberEnd(s, c, i + 1, true, exponent)
    else if Exponent(s, i) && !exponent then NumberEnd(s, c, if Sign(s, i + 1) then i + 2 else i + 1, period, true)
    else i
  }

  /** From inside a string literal: a backslash escapes the next rune, two quotes are one. */
  function StringEnd(s: seq<byte>, i: nat): (f: Found)
    requires i <= |s|
    ensures i <= f.at <= |s| && (if f.ok then f.at > 0 && s[f.at - 1] == '\'' as int else !Ok(s, f.at))
    decreases |s| - i
  {
    if !Ok(s, i) then Found(false, i)
    else if Is(s, i, '\\') then StringEnd(s, if Ok(s, i + 1) then Past(s, i + 1) else i + 1)
    else if Is(s, i, '\'') then if Is(s, i + 1, '\'') then StringEnd(s, i + 2) else Found(true, i + 1)
    else StringEnd(s, Past(s, i))
  }

  /** From inside a quoted identifier: two double quotes are one, other quotes are not. */
  function QuotedEnd(s: seq<byte>, i: nat, delim: char): (f: Found)
    requires i <= |s|
    ensures i <= f.at <= |s| && (if f.ok then f.at > i else !Ok(s, f.at))
    decreases |s| - i
  {
    if !Ok(s, i) then Found(false, i)
    else if Is(s, i, delim) then
      if delim == '"' && Is(s, i + 1, delim) then QuotedEnd(s, i + 2, delim) else Found(true, i + 1)
    else QuotedEnd(s, Past(s, i), delim)
  }

  function LineEnd(s: seq<byte>, i: nat): (j: nat)
    requires i <= |s|
    ensures i <= j <= |s|
    decreases |s| - i
  {
    if !Ok(s, i) then i else if Is(s, i, '\n') then i + 1 else LineEnd(s, Past(s, i))
  }

  predicate Opens(s: seq<byte>, i: nat) {
    Is(s, i, '/') && Is(s, i + 1, '*')
  }

  predicate Closes(s: seq<byte>, i: nat) {
    Is(s, i, '*') && Is(s, i + 1, '/')
  }

  /** From inside comments nested this deep. */
  function CommentEnd(s: seq<byte>, i: nat, depth: nat): (f: Found)
    requires i <= |s| && depth > 0
    ensures i <= f.at <= |s| && (!f.ok ==> !Ok(s, f.at))
    decreases |s| - i
  {
    if !Ok(s, i) then Found(false, i)
    else if Opens(s, i) then CommentEnd(s, i + 2, depth + 1)
    else if Closes(s, i) then if depth == 1 then Found(true, i + 2) else CommentEnd(s, i + 2, depth - 1)
    else CommentEnd(s, Past(s, i), depth)
  }

  /** t is found at i. */
  predicate At(s: seq<byte>, i: nat, t: seq<byte>) {
    i + |t| <= |s| && s[i..i + |t|] == t
  }

  /** strings.Index, from i on. */
  function Index(s: seq<byte>, i: nat, t: seq<byte>): (f: Found)
    requires i <= |s|
    ensures i <= f.at && (forall k :: i <= k < f.at ==> !At(s, k, t))
    ensures if f.ok then At(s, f.at, t) else forall k :: i <= k ==> !At(s, k, t)
    decreases |s| - i
  {
    if At(s, i, t) then Found(true, i) else if i == |s| then Found(false, i) else Index(s, i + 1, t)
  }

  // ----- tokens -----

  datatype Lexed = Lexed(tok: Token, start: nat, end: nat, pos: nat)

  predicate Same(text: seq<byte>, word: string) {
    |text| == |word| && forall i :: 0 <= i < |word| ==> text[i] == word[i] as int || text[i] == word[i] as int + 0x20
  }

  function Spelling(tok: Token): string {
    match tok
    case AS => "AS" case CALL => "CALL" case DELETE => "DELETE" case FROM => "FROM" case INSERT => "INSERT"
    case INTO => "INTO" case OR => "OR" case REPLACE => "REPLACE" case SELECT => "SELECT" case SET => "SET"
    case TABLE => "TABLE" case TRUNCATE => "TRUNCATE" case UPDATE => "UPDATE" case _ => ""
  }

  /** keywords, at the position of the length */
  function Keywords(n: nat): seq<Token> {
    match n
    case 2 => [AS, OR] case 3 => [SET] case 4 => [CALL, FROM, INTO] case 5 => [TABLE]
    case 6 => [DELETE, INSERT, SELECT, UPDATE] case 7 => [REPLACE] case 8 => [TRUNCATE] case _ => []
  }

  /** From the dollar at start, whose tag reaches to i. */
  function DollarEnd(s: seq<byte>, c: Classes, start: nat, i: nat): (l: Lexed)
    requires start < i <= |s|
    ensures l.start == start < l.end <= l.pos <= |s| && (l.tok == OTHER || l.tok == STRING)
    decreases |s| - i
  {
    if !Ok(s, i) then Lexed(OTHER, start, i, i)
    else if Is(s, i, '$') then
      var tag := s[start..i + 1];
      var f := Index(s, i + 1, tag);
      if f.ok then Lexed(STRING, start, f.at + |tag|, f.at + |tag|) else DollarEnd(s, c, start, i + 1)
    else if !c.letter(Rune(s, i)) && !c.digit(Rune(s, i)) && !Is(s, i, '_') && c.space(Rune(s, i)) then
      Lexed(OTHER, start, i, Past(s, i))
    else DollarEnd(s, c, start, Past(s, i))
  }

  function Dollar(s: seq<byte>, c: Classes, i: nat): (l: Lexed)
    requires i < |s|
    ensures l.start == i < l.end <= l.pos <= |s|
  {
    var j := i + 1;
    if !Ok(s, j) then Lexed(OTHER, i, j, j)
    else if c.digit(Rune(s, j)) then Lexed(OTHER, i, DigitsEnd(s, c, j), DigitsEnd(s, c, j))
    else if Is(s, j, '$') || Is(s, j, '_') || c.letter(Rune(s, j)) then DollarEnd(s, c, i, j)
    else Lexed(OTHER, i, j, j)
  }

  function Simple(tok: Token, start: nat, end: nat): Lexed {
    Lexed(tok, start, end, end)
  }

  function Whole(tok: Token, start: nat, f: Found): Lexed {
    if f.ok then Lexed(tok, start, f.at, f.at) else Lexed(EOF, start, f.at, f.at)
  }

  function Quoted(start: nat, f: Found): Lexed
    requires f.ok ==> f.at > 0
  {
    if f.ok then Lexed(IDENT, start + 1, f.at - 1, f.at) else Lexed(EOF, start, f.at, f.at)
  }

  /** The token of the word from start to end. */
  function Word(s: seq<byte>, start: nat, end: nat, maybeKeyword: bool): (tok: Token)
    requires start <= end <= |s|
    ensures tok == IDENT || (maybeKeyword && Spelling(tok) != "" && Same(s[start..end], Spelling(tok)))
  {
    var ks := Keywords(end - start);
    if !maybeKeyword then IDENT
    else if |ks| > 0 && Same(s[start..end], Spelling(ks[0])) then ks[0]
    else if |ks| > 1 && Same(s[start..end], Spelling(ks[1])) then ks[1]
    else if |ks| > 2 && Same(s[start..end], Spelling(ks[2])) then ks[2]
    else if |ks| > 3 && Same(s[start..end], Spelling(ks[3])) then ks[3]
    else IDENT
  }

  /** The token that begins with the rune at i. */
  function TokenAt(s: seq<byte>, c: Classes, i: nat): Lexed
    requires Ok(s, i)
  {
    var r, j := Rune(s, i), Past(s, i);
    if r == '_' as int || c.letter(r) then
      var e := WordEnd(s, c, j);
      Simple(Word(s, i, e, r != '_' as int && Letters(s, c, j)), i, e)
    else if c.digit(r) then Simple(NUMBER, i, NumberEnd(s, c, j, false, false))
    else if Is(s, i, '\'') then Whole(STRING, i, StringEnd(s, j))
    else if Is(s, i, '"') then Quoted(i, QuotedEnd(s, j, '"'))
    else if Is(s, i, '[') then Quoted(i, QuotedEnd(s, j, ']'))
    else if Is(s, i, '`') then Quoted(i, QuotedEnd(s, j, '`'))
    else if Is(s, i, '(') then Simple(LPAREN, i, j)
    else if Is(s, i, ')') then Simple(RPAREN, i, j)
    else if Is(s, i, '-') && Is(s, j, '-') then Simple(COMMENT, i, LineEnd(s, j + 1))
    else if Is(s, i, '/') && Is(s, j, '*') then Whole(COMMENT, i, CommentEnd(s, j + 1, 1))
    else if Is(s, i, '/') && Is(s, j, '/') then Simple(COMMENT, i, LineEnd(s, j + 1))
    else if Is(s, i, '.') then Simple(PERIOD, i, j)
    else if Is(s, i, '$') then Dollar(s, c, i)
    else Simple(OTHER, i, j)
  }

  /** The token after i. */
  function Next(s: seq<byte>, c: Classes, i: nat): Lexed
    requires i <= |s|
  {
    var f := SkipSpaces(s, c, i);
    if f.ok then TokenAt(s, c, f.at) else Lexed(EOF, f.at, f.at, f.at)
  }

  // ----- laws of one token -----

  /** A token is found further on in the text, and the position moves past it; or else no
      rune is left where the scanner stops. */
  lemma TokenAdvances(s: seq<byte>, c: Classes, i: nat)
    requires i <= |s|
    ensures var l := Next(s, c, i);
            if l.tok == EOF then i <= l.pos <= |s| && !Ok(s, l.pos)
            else i <= l.start <= l.end <= l.pos <= |s| && i < l.pos
  {
    hide Rune, Same, WordEnd, Letters, NumberEnd, DigitsEnd, StringEnd, QuotedEnd, LineEnd, CommentEnd, DollarEnd, Index, SkipSpaces;
    var f := SkipSpaces(s, c, i);
    if f.ok {
      assert Past(s, f.at) > f.at;
    }
  }

  /** Once there is no token, there never is one. */
  lemma NoMoreTokens(s: seq<byte>, c: Classes, i: nat)
    requires i <= |s| && Next(s, c, i).tok == EOF
    ensures Next(s, c, Next(s, c, i).pos) == Lexed(EOF, Next(s, c, i).pos, Next(s, c, i).pos, Next(s, c, i).pos)
  {
    TokenAdvances(s, c, i);
  }
}

/** The scanner itself, which moves over its input. */
module SqlScanner {
  import opened Basics
  import opened Runes
  import opened SqlText

  class Scanner {
    const input: seq<byte>
    const classes: Classes
    var start: nat
    var end: nat
    var pos: nat
    var tok: Token

    constructor (sql: seq<byte>, classes: Classes)
      ensures Valid() && input == sql && this.classes == classes && pos == 0
    {
      input, this.classes := sql, classes;
      start, end, pos, tok := 0, 0, 0, OTHER;
    }

    ghost predicate Valid()
      reads this
    {
      start <= end <= pos <= |input|
    }

    /** All runes read so far belong to the token. */
    ghost predicate Reading()
      reads this
    {
      start < end == pos <= |input|
    }

    function Text(): (t: seq<byte>)
      requires Valid()
      reads this
      ensures |t| == end - start && At(input, start, t)
    {
      input[start..end]
    }

    method Next() returns (r: int, ok: bool)
      requires pos <= |input|
      modifies `pos, `end
      ensures r == Rune(input, old(pos)) && ok == Ok(input, old(pos))
      ensures if ok then end == pos == Past(input, old(pos)) else end == old(end) && pos == old(pos)
    {
      r := Rune(input, pos);
      ok := r != RUNE_ERROR;
      if ok {
        pos := pos + Width(input, pos);
        end := pos;
      }
    }

    method Peek() returns (r: int, ok: bool)
      requires pos <= |input|
      ensures r == Rune(input, pos) && ok == Ok(input, pos)
    {
      r := Rune(input, pos);
      ok := r != RUNE_ERROR;
    }

    /** The state is that of the token l. */
    ghost predicate Shows(t: Token, l: Lexed)
      reads this
    {
      t == l.tok && pos == l.pos && (t != EOF ==> start == l.start && end == l.end)
    }

    method ScanKeywordOrIdentifier(first: bool) returns (t: Token)
      requires Reading()
      modifies `pos, `end
      ensures Reading() && pos == WordEnd(input, classes, old(pos))
      ensures t == Word(input, start, end, first && Letters(input, classes, old(pos)))
    {
      hide Rune;
      var maybeKeyword := first;
      while true
        invariant Reading() && WordEnd(input, classes, pos) == WordEnd(input, classes, old(pos))
        invariant maybeKeyword && Letters(input, classes, pos) <==> first && Letters(input, classes, old(pos))
        decreases |input| - pos
      {
        var r, ok := Peek();
        if !ok {
          break;
        }
        if classes.letter(r) {
        } else if classes.digit(r) || r == '_' as int || r == '$' as int {
          maybeKeyword := false;
        } else {
          break;
        }
        var _, _ := Next();
      }
      if !maybeKeyword {
        return IDENT;
      }
      var text := Text();
      var ks := Keywords(|text|);
      for i := 0 to |ks|
        invariant forall k :: 0 <= k < i ==> !Same(text, Spelling(ks[k]))
      {
        if Same(text, Spelling(ks[i])) {
          return ks[i];
        }
      }
      return IDENT;
    }

    method ScanNumericLiteral() returns (t: Token)
      requires Reading()
      modifies `pos, `end
      ensures Reading() && t == NUMBER && pos == NumberEnd(input, classes, old(pos), false, false)
    {
      hide Rune, RuneLen;
      var havePeriod, haveExponent := false, false;
      while true
        invariant Reading()
        invariant NumberEnd(input, classes, pos, havePeriod, haveExponent)
                  == NumberEnd(input, classes, old(pos), false, false)
        decreases |input| - pos
      {
        var r, ok := Peek();
        if !ok {
          return NUMBER;
        }
        RuneLenIsWidth(input, pos);
        if classes.digit(r) {
          var _, _ := Next();
        } else if r == '.' as int {
          if havePeriod {
            return NUMBER;
          }
          var _, _ := Next();
          havePeriod := true;
        } else if r == 'e' as int || r == 'E' as int {
          if haveExponent {
            return NUMBER;
          }
          var _, _ := Next();
          haveExponent := true;
          var r', ok' := Peek();
          if ok' {
            RuneLenIsWidth(input, pos);
            if r' == '+' as int || r' == '-' as int {
              var _, _ := Next();
            }
          }
        } else {
          return NUMBER;
        }
      }
    }

    method ScanStringLiteral() returns (t: Token)
      requires Reading()
      modifies `pos, `end
      ensures Reading() && Shows(t, Whole(STRING, start, StringEnd(input, old(pos))))
    {
      hide Rune, RuneLen;
      while true
        invariant Reading() && StringEnd(input, pos) == StringEnd(input, old(pos))
        decreases |input| - pos
      {
        var i := pos;
        var r, ok := Next();
        if !ok {
          return EOF;
        }
        RuneLenIsWidth(input, i);
        if r == '\\' as int {
          var _, _ := Next();
          continue;
        }
        if r != '\'' as int {
          continue;
        }
        var r', ok' := Peek();
        if ok' {
          RuneLenIsWidth(input, pos);
        }
        if !ok' || r' != '\'' as int {
          return STRING;
        }
        var _, _ := Next();
      }
    }

    method ScanQuotedIdentifier(delim: char) returns (t: Token)
      requires Reading() && delim < 128 as char
      modifies `start, `pos, `end
      ensures Valid() && Shows(t, Quoted(old(start), QuotedEnd(input, old(pos), delim)))
    {
      while true
        invariant Reading() && start == old(start)
        invariant QuotedEnd(input, pos, delim) == QuotedEnd(input, old(pos), delim)
        decreases |input| - pos
      {
        var i := pos;
        var r, ok := Next();
        if !ok {
          return EOF;
        }
        RuneLenIsWidth(input, i);
        if r == delim as int {
          if delim == '"' {
            var r', ok' := Peek();
            if ok' {
              RuneLenIsWidth(input, pos);
              if r' == delim as int {
                var _, _ := Next();
                continue;
              }
            }
          }
          break;
        }
      }
      start := start + 1;
      end := end - 1;
      return IDENT;
    }

    method ScanSimpleComment() returns (t: Token)
      requires Reading()
      modifies `pos, `end
      ensures Reading() && t == COMMENT && pos == LineEnd(input, old(pos))
    {
      while true
        invariant Reading() && LineEnd(input, pos) == LineEnd(input, old(pos))
        decreases |input| - pos
      {
        var i := pos;
        var r, ok := Next();
        if ok {
          RuneLenIsWidth(input, i);
        }
        if !ok || r == '\n' as int {
          return COMMENT;
        }
      }
    }

    method ScanBracketedComment() returns (t: Token)
      requires Reading()
      modifies `pos, `end
      ensures Reading() && Shows(t, Whole(COMMENT, start, CommentEnd(input, old(pos), 1)))
    {
      hide Rune, RuneLen;
      var nesting := 1;
      while true
        invariant Reading() && nesting > 0
        invariant CommentEnd(input, pos, nesting) == CommentEnd(input, old(pos), 1)
        decreases |input| - pos
      {
        var i := pos;
        var r, ok := Next();
        if !ok {
          return EOF;
        }
        RuneLenIsWidth(input, i);
        if r == '/' as int {
          var r', ok' := Peek();
          if ok' {
            RuneLenIsWidth(input, pos);
            if r' == '*' as int {
              var _, _ := Next();
              nesting := nesting + 1;
            }
          }
        } else if r == '*' as int {
          var r', ok' := Peek();
          if ok' {
            RuneLenIsWidth(input, pos);
            if r' == '/' as int {
              var _, _ := Next();
              nesting := nesting - 1;
              if nesting == 0 {
                return COMMENT;
              }
            }
          }
        }
      }
    }

    method ScanDollar() returns (t: Token)
      requires Reading() && pos == start + 1
      modifies `pos, `end
      ensures Valid() && Shows(t, Dollar(input, classes, start))
    {
      var next, ok := Peek();
      if !ok {
        return OTHER;
      }
      RuneLenIsWidth(input, pos);
      if classes.digit(next) {
        while true
          invariant Reading() && DigitsEnd(input, classes, pos) == DigitsEnd(input, classes, old(pos))
          decreases |input| - pos
        {
          var next', ok' := Peek();
          if !ok' || !classes.digit(next') {
            break;
          }
          var _, _ := Next();
        }
        return OTHER;
      } else if next == '$' as int || next == '_' as int || classes.letter(next) {
        t := ScanDollarQuoted();
        return;
      }
      return OTHER;
    }

    method ScanDollarQuoted() returns (t: Token)
      requires Reading()
      modifies `pos, `end
      ensures Valid() && Shows(t, DollarEnd(input, classes, start, old(pos)))
    {
      hide Rune, RuneLen, At;
      while true
        invariant Reading() && DollarEnd(input, classes, start, pos) == DollarEnd(input, classes, start, old(pos))
        decreases |input| - pos
      {
        var i := pos;
        var r, ok := Next();
        if !ok {
          return OTHER;
        }
        RuneLenIsWidth(input, i);
        if r == '$' as int {
          var tag := Text();
          var f := Index(input, pos, tag);
          if f.ok {
            end := f.at + |tag|;
            pos := f.at + |tag|;
            return STRING;
          }
        } else if classes.letter(r) || classes.digit(r) || r == '_' as int {
        } else if classes.space(r) {
          end := end - RuneLen(r);
          return OTHER;
        }
      }
    }

    method ScanToken() returns (t: Token)
      requires Valid()
      modifies `start, `pos, `end
      ensures Valid() && Shows(t, SqlText.Next(input, classes, old(pos)))
    {
      hide Rune, RuneLen, TokenAt;
      var i := pos;
      var r, ok := Next();
      if !ok {
        return EOF;
      }
      while classes.space(r)
        invariant start <= end == pos <= |input| && i < pos && Ok(input, i) && r == Rune(input, i) && pos == Past(input, i)
        invariant SkipSpaces(input, classes, i) == SkipSpaces(input, classes, old(pos))
        decreases |input| - i
      {
        i := pos;
        r, ok := Next();
        if !ok {
          return EOF;
        }
      }
      RuneLenIsWidth(input, i);
      start := pos - RuneLen(r);
      t := ScanFrom(r);
    }

    /** The rest of scan, after its first rune that is no space. */
    method ScanFrom(r: int) returns (t: Token)
      requires Reading() && Ok(input, start) && r == Rune(input, start) && pos == Past(input, start)
      modifies `start, `pos, `end
      ensures Valid() && Shows(t, TokenAt(input, classes, old(start)))
    {
      RuneLenIsWidth(input, start);
      if r == '_' as int || classes.letter(r) {
        t := ScanKeywordOrIdentifier(r != '_' as int);
        return;
      } else if classes.digit(r) {
        t := ScanNumericLiteral();
        return;
      }
      if r == '\'' as int {
        t := ScanStringLiteral();
      } else if r == '"' as int {
        t := ScanQuotedIdentifier('"');
      } else if r == '[' as int {
        t := ScanQuotedIdentifier(']');
      } else if r == '`' as int {
        t := ScanQuotedIdentifier('`');
      } else if r == '(' as int {
        t := LPAREN;
      } else if r == ')' as int {
        t := RPAREN;
      } else if r == '-' as int || r == '/' as int {
        t := ScanComment(r);
      } else if r == '.' as int {
        t := PERIOD;
      } else if r == '$' as int {
        t := ScanDollar();
      } else {
        t := OTHER;
      }
    }

    /** The cases of a dash and of a slash. */
    method ScanComment(r: int) returns (t: Token)
      requires Reading() && pos == start + 1 && r == input[start] && (r == '-' as int || r == '/' as int)
      modifies `pos, `end
      ensures Reading()
      ensures if (r == '-' as int && Is(input, start + 1, '-')) || (r == '/' as int && Is(input, start + 1, '/'))
              then t == COMMENT && pos == LineEnd(input, start + 2)
              else if r == '/' as int && Is(input, start + 1, '*')
              then Shows(t, Whole(COMMENT, start, CommentEnd(input, start + 2, 1)))
              else t == OTHER && pos == old(pos)
    {
      var next, ok := Peek();
      if !ok {
        return OTHER;
      }
      RuneLenIsWidth(input, pos);
      if r == '-' as int {
        if next == '-' as int {
          var _, _ := Next();
          t := ScanSimpleComment();
          return;
        }
      } else if next == '*' as int {
        var _, _ := Next();
        t := ScanBracketedComment();
        return;
      } else if next == '/' as int {
        var _, _ := Next();
        t := ScanSimpleComment();
        return;
      }
      return OTHER;
    }

    /** Scan: the next token of the text, if there is one. */
    method Scan() returns (found: bool)
      requires Valid()
      modifies this
      ensures Valid() && Shows(tok, SqlText.Next(input, classes, old(pos))) && found == (tok != EOF)
    {
      tok := ScanToken();
      return tok != EOF;
    }
  }
}

/** Laws of the scanner. */
module SqlLaws {
  import opened Basics
  import opened Runes
  import opened SqlText

  // ----- all the tokens of a text -----

  /** What a caller gets that scans until there is no more. */
  function Tokens(s: seq<byte>, c: Classes, i: nat): seq<Lexed>
    requires i <= |s|
    decreases |s| - i
  {
    var l := Next(s, c, i);
    TokenAdvances(s, c, i);
    if l.tok == EOF then [] else [l] + Tokens(s, c, l.pos)
  }

  predicate Spans(l: Lexed, from: nat, to: nat) {
    from <= l.start <= l.end <= l.pos <= to
  }

  /** The texts of the tokens follow one another and never overlap; there are no more of
      them than bytes. */
  lemma {:induction false} TokensFollow(s: seq<byte>, c: Classes, i: nat)
    requires i <= |s|
    ensures var ts := Tokens(s, c, i);
            && |ts| <= |s| - i
            && (forall k :: 0 <= k < |ts| ==> Spans(ts[k], i, |s|))
            && forall j, k :: 0 <= j < k < |ts| ==> ts[j].pos <= ts[k].start
    decreases |s| - i
  {
    var l := Next(s, c, i);
    TokenAdvances(s, c, i);
    if l.tok != EOF {
      TokensFollow(s, c, l.pos);
      var rest := Tokens(s, c, l.pos);
      assert Tokens(s, c, i) == [l] + rest;
      assert forall k :: 0 <= k < |rest| ==> Spans(rest[k], l.pos, |s|);
    }
  }

  // ----- comments -----

  /** How far one piece of a comment goes, and by how much it changes the depth. */
  function Piece(s: seq<byte>, i: nat): nat
    requires Ok(s, i)
  {
    if Opens(s, i) || Closes(s, i) then i + 2 else Past(s, i)
  }

  function Change(s: seq<byte>, i: nat): int {
    if Opens(s, i) then 1 else if Closes(s, i) then -1 else 0
  }

  /** After k pieces from i on: the position, and the depth relative to that at i. */
  function Cut(s: seq<byte>, i: nat, k: nat): nat
    decreases k
  {
    if k == 0 || !Ok(s, i) then i else Cut(s, Piece(s, i), k - 1)
  }

  function Depth(s: seq<byte>, i: nat, k: nat): int
    decreases k
  {
    if k == 0 || !Ok(s, i) then 0 else Change(s, i) + Depth(s, Piece(s, i), k - 1)
  }

  /** A bracketed comment ends where its depth first is zero; without that it has no end,
      and the scanner stops where no rune is left. */
  lemma {:induction false} CommentEndsFirst(s: seq<byte>, i: nat, depth: nat) returns (k: nat)
    requires i <= |s| && depth > 0
    ensures var f := CommentEnd(s, i, depth);
            && f.at == Cut(s, i, k)
            && (forall m :: 0 <= m < k ==> depth + Depth(s, i, m) > 0)
            && (f.ok <==> depth + Depth(s, i, k) == 0)
            && (!f.ok ==> !Ok(s, f.at) && depth + Depth(s, i, k) > 0)
    decreases |s| - i
  {
    if !Ok(s, i) {
      k := 0;
    } else if Closes(s, i) && depth == 1 {
      k := 1;
      assert Depth(s, i, 1) == Change(s, i) + Depth(s, i + 2, 0);
      assert Cut(s, i, 1) == Cut(s, i + 2, 0);
    } else {
      var n := CommentEndsFirst(s, Piece(s, i), depth + Change(s, i));
      k := n + 1;
      forall m | 0 <= m < k
        ensures depth + Depth(s, i, m) > 0
      {
        if m > 0 {
          assert depth + Change(s, i) + Depth(s, Piece(s, i), m - 1) > 0;
        }
      }
    }
  }

  // ----- dollar quotes -----

  /** A tag: between two dollars, and no less than them. */
  predicate Tag(t: seq<byte>) {
    |t| >= 2 && t[0] == '$' as int && t[|t| - 1] == '$' as int
  }

  lemma DollarFound(s: seq<byte>, start: nat, i: nat)
    requires start < i < |s| && Is(s, start, '$') && Is(s, i, '$') && Index(s, i + 1, s[start..i + 1]).ok
    ensures var t, f := s[start..i + 1], Index(s, i + 1, s[start..i + 1]);
            && Tag(t) && At(s, start, t)
            && start + |t| <= f.at && At(s, f.at, t)
            && forall k :: start + |t| <= k < f.at ==> !At(s, k, t)
  {
    hide Index;
  }

  /** A dollar-quoted string begins with a tag, and goes up to the first place where the
      tag is found again. */
  lemma {:induction false} DollarTags(s: seq<byte>, c: Classes, start: nat, i: nat) returns (t: seq<byte>)
    requires start < i <= |s| && Is(s, start, '$')
    ensures var l := DollarEnd(s, c, start, i);
            l.tok == STRING ==>
              && Tag(t) && At(s, start, t)
              && l.end == l.pos && start + 2 * |t| <= l.end && At(s, l.end - |t|, t)
              && forall k :: start + |t| <= k < l.end - |t| ==> !At(s, k, t)
    decreases |s| - i
  {
    hide Rune, Index, Tag, At;
    t := [];
    if Ok(s, i) {
      if Is(s, i, '$') {
        t := s[start..i + 1];
        if Index(s, i + 1, t).ok {
          DollarFound(s, start, i);
        } else {
          t := DollarTags(s, c, start, i + 1);
        }
      } else if DollarEnd(s, c, start, i) == DollarEnd(s, c, start, Past(s, i)) {
        t := DollarTags(s, c, start, Past(s, i));
      }
    }
  }

  // ----- quoting -----

  /** The text from k on is well formed. */
  predicate AllOk(s: seq<byte>, k: nat)
    requires k <= |s|
    decreases |s| - k
  {
    k < |s| ==> Ok(s, k) && AllOk(s, Past(s, k))
  }

  predicate Special(s: seq<byte>, k: nat) {
    Is(s, k, '\'') || Is(s, k, '\\')
  }

  /** The rune at k, twice if it is a quote or a backslash. */
  function Escaped(s: seq<byte>, k: nat): seq<byte>
    requires Ok(s, k)
  {
    if Special(s, k) then [s[k], s[k]] else s[k..Past(s, k)]
  }

  /** The text from k on as it is written between quotes. */
  function Doubled(s: seq<byte>, k: nat): seq<byte>
    requires k <= |s| && AllOk(s, k)
    decreases |s| - k
  {
    if k == |s| then [] else Escaped(s, k) + Doubled(s, Past(s, k))
  }

  lemma ByteAt(s: seq<byte>, i: nat, t: seq<byte>, j: nat)
    requires At(s, i, t) && j < |t|
    ensures i + j < |s| && s[i + j] == t[j]
  {
    assert s[i..i + |t|][j] == t[j];
  }

  lemma RuneCopied(s: seq<byte>, i: nat, t: seq<byte>, k: nat)
    requires Ok(t, k) && At(s, i, t[k..Past(t, k)])
    ensures Rune(s, i) == Rune(t, k) && Past(s, i) == i + Width(t, k)
  {
    var r := t[k..Past(t, k)];
    ByteAt(s, i, r, 0);
    if |r| > 1 {
      ByteAt(s, i, r, 1);
    }
    if |r| > 2 {
      ByteAt(s, i, r, 2);
    }
    if |r| > 3 {
      ByteAt(s, i, r, 3);
    }
  }

  lemma AtParts(s: seq<byte>, i: nat, a: seq<byte>, b: seq<byte>)
    requires At(s, i, a + b)
    ensures At(s, i, a) && At(s, i + |a|, b)
  {
    assert s[i..i + |a|] == (a + b)[..|a|] && s[i + |a|..i + |a| + |b|] == (a + b)[|a|..];
  }

  const QUOTE: seq<byte> := ['\'' as int]

  /** One rune of a literal's contents is passed. */
  lemma OneInString(s: seq<byte>, i: nat, t: seq<byte>, k: nat)
    requires Ok(t, k) && At(s, i, Escaped(t, k))
    ensures i + |Escaped(t, k)| <= |s| && StringEnd(s, i) == StringEnd(s, i + |Escaped(t, k)|)
  {
    if Special(t, k) {
      ByteAt(s, i, [t[k], t[k]], 0);
      ByteAt(s, i, [t[k], t[k]], 1);
      assert Ok(s, i) && Ok(s, i + 1);
    } else {
      RuneCopied(s, i, t, k);
      RuneLenIsWidth(t, k);
      RuneLenIsWidth(s, i);
    }
  }

  lemma QuoteEnds(s: seq<byte>, i: nat)
    requires Is(s, i, '\'') && !Is(s, i + 1, '\'')
    ensures StringEnd(s, i) == Found(true, i + 1)
  {
    assert Ok(s, i);
  }

  lemma OneOfMany(s: seq<byte>, i: nat, t: seq<byte>, k: nat)
    requires k < |t| && AllOk(t, k) && At(s, i, Doubled(t, k) + QUOTE)
    ensures |Doubled(t, k)| == |Escaped(t, k)| + |Doubled(t, Past(t, k))|
    ensures At(s, i, Escaped(t, k)) && At(s, i + |Escaped(t, k)|, Doubled(t, Past(t, k)) + QUOTE)
  {
    var a, rest := Escaped(t, k), Doubled(t, Past(t, k));
    assert a + rest + QUOTE == a + (rest + QUOTE);
    AtParts(s, i, a, rest + QUOTE);
  }

  lemma {:induction false} StringPassed(s: seq<byte>, i: nat, t: seq<byte>, k: nat)
    requires k <= |t| && AllOk(t, k) && At(s, i, Doubled(t, k) + QUOTE)
    requires !Is(s, i + |Doubled(t, k)| + 1, '\'')
    ensures StringEnd(s, i) == Found(true, i + |Doubled(t, k)| + 1)
    decreases |t| - k
  {
    hide StringEnd, Rune;
    if k == |t| {
      AtParts(s, i, [], QUOTE);
      ByteAt(s, i, QUOTE, 0);
      QuoteEnds(s, i);
    } else {
      OneOfMany(s, i, t, k);
      OneInString(s, i, t, k);
      StringPassed(s, i + |Escaped(t, k)|, t, Past(t, k));
    }
  }

  /** Unicode has this rune as neither letter nor digit nor space. */
  predicate Punctuation(c: Classes, r: char) {
    !c.letter(r as int) && !c.digit(r as int) && !c.space(r as int)
  }

  /** A text whose quotes and backslashes are doubled, put in quotes, is one string token:
      nothing in it ends the literal. */
  lemma QuotedIsOneString(s: seq<byte>, c: Classes, i: nat, t: seq<byte>)
    requires AllOk(t, 0) && Punctuation(c, '\'')
    requires At(s, i, QUOTE + (Doubled(t, 0) + QUOTE))
    requires !Is(s, i + |Doubled(t, 0)| + 2, '\'')
    ensures Next(s, c, i) == Lexed(STRING, i, i + |Doubled(t, 0)| + 2, i + |Doubled(t, 0)| + 2)
  {
    var body := Doubled(t, 0) + QUOTE;
    AtParts(s, i, QUOTE, body);
    ByteAt(s, i, QUOTE, 0);
    assert Ok(s, i) && Rune(s, i) == '\'' as int;
    StringPassed(s, i + 1, t, 0);
  }
}
