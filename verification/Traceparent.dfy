/** The traceparent header of W3C Trace Context, section 3.2 (module/apmhttp/traceheaders.go). */
module Traceparent {
  import opened Basics

  /** Trace and span IDs, and the options. */
  datatype TraceContext = TraceContext(trace: seq<byte>, span: seq<byte>, options: byte)

  // ----- hexadecimal digits -----

  function HexDigit(d: nat): char
    requires d < 16
  {
    if d < 10 then '0' + d as char else 'a' + (d - 10) as char
  }

  function HexValue(c: char): Option<nat> {
    if '0' <= c <= '9' then Some((c - '0') as nat)
    else if 'a' <= c <= 'f' then Some((c - 'a') as nat + 10)
    else if 'A' <= c <= 'F' then Some((c - 'A') as nat + 10)
    else None
  }

  /** A digit is read back, and a digit that was read is written in lower case. */
  lemma HexDigits()
    ensures forall d: nat :: d < 16 ==> HexValue(HexDigit(d)) == Some(d)
    ensures forall c :: HexValue(c).Some? ==> HexValue(c).value < 16 && HexDigit(HexValue(c).value) == LowerChar(c)
  {
    forall c | HexValue(c).Some?
      ensures HexValue(c).value < 16 && HexDigit(HexValue(c).value) == LowerChar(c)
    {
      if 'a' <= c <= 'f' {
        assert (c - 'a') as nat + 10 >= 10;
      } else if 'A' <= c <= 'F' {
        assert (c - 'A') as nat + 10 >= 10;
      }
    }
  }

  /** hex.Encode */
  function Encode(bytes: seq<byte>): (s: string)
    ensures |s| == 2 * |bytes|
  {
    if bytes == [] then ""
    else [HexDigit(bytes[0] as nat / 16), HexDigit(bytes[0] as nat % 16)] + Encode(bytes[1..])
  }

  /** hex.Decode */
  function Decode(s: string): (bytes: Option<seq<byte>>)
    ensures bytes.Some? ==> 2 * |bytes.value| == |s|
  {
    if s == "" then Some([])
    else if |s| == 1 then None
    else if HexValue(s[0]).None? || HexValue(s[1]).None? then None
    else
      HexDigits();
      var rest := Decode(s[2..]);
      if rest.None? then None
      else Some([(16 * HexValue(s[0]).value + HexValue(s[1]).value) as byte] + rest.value)
  }

  lemma {:induction false} DecodeEncoded(bytes: seq<byte>)
    ensures Decode(Encode(bytes)) == Some(bytes)
  {
    if bytes != [] {
      HexDigits();
      DecodeEncoded(bytes[1..]);
      assert Encode(bytes)[2..] == Encode(bytes[1..]);
      assert bytes == [bytes[0]] + bytes[1..];
    }
  }

  lemma Digits(hi: nat, lo: nat)
    requires hi < 16 && lo < 16
    ensures (16 * hi + lo) / 16 == hi && (16 * hi + lo) % 16 == lo
  {
  }

  lemma LowerTwo(s: string)
    requires |s| >= 2
    ensures Lower(s) == [LowerChar(s[0]), LowerChar(s[1])] + Lower(s[2..])
  {
  }

  lemma {:induction false} EncodeDecoded(s: string)
    requires Decode(s).Some?
    ensures Encode(Decode(s).value) == Lower(s)
  {
    if s != "" {
      HexDigits();
      EncodeDecoded(s[2..]);
      Digits(HexValue(s[0]).value, HexValue(s[1]).value);
      LowerTwo(s);
      var rest := Decode(s[2..]).value;
      assert Decode(s).value[1..] == rest;
    }
  }

  // ----- the header -----

  /** strconv.FormatUint(n, 16), for one byte */
  function FormatUint(n: byte): string {
    if n < 16 then [HexDigit(n as nat)] else [HexDigit(n as nat / 16), HexDigit(n as nat % 16)]
  }

  function FormatTraceparentHeader(c: TraceContext): string {
    var opts := FormatUint(c.options);
    "00-" + Encode(c.trace) + "-" + Encode(c.span) + "-" + if |opts| == 1 then "0" + opts else opts
  }

  predicate IsZero(id: seq<byte>) {
    forall i :: 0 <= i < |id| ==> id[i] == 0
  }

  const TRACE_ID_END := 32
  const SPAN_ID_START := TRACE_ID_END + 1
  const SPAN_ID_END := SPAN_ID_START + 16
  const TRACE_OPTIONS_START := SPAN_ID_END + 1
  const TRACE_OPTIONS_END := TRACE_OPTIONS_START + 2

  function ParseTraceparentHeader(header: string): Option<TraceContext> {
    if |header| < 3 || header[2] != '-' then None
    else
      var decoded := if header[..2] == "00" then Some([0]) else Decode(header[..2]);
      if decoded.None? || decoded.value[0] == 255 then None
      else ParseVersion(decoded.value[0], header[3..])
  }

  function ParseVersion(version: byte, h: string): Option<TraceContext> {
    if || |h| < TRACE_OPTIONS_END
       || h[TRACE_ID_END] != '-'
       || h[SPAN_ID_END] != '-'
       || (version == 0 && |h| != TRACE_OPTIONS_END)
       || (version > 0 && |h| > TRACE_OPTIONS_END && h[TRACE_OPTIONS_END] != '-')
    then None
    else
      var trace := Decode(h[..TRACE_ID_END]);
      if trace.None? || IsZero(trace.value) then None
      else
        var span := Decode(h[SPAN_ID_START..SPAN_ID_END]);
        if span.None? || IsZero(span.value) then None
        else
          var options := Decode(h[TRACE_OPTIONS_START..TRACE_OPTIONS_END]);
          if options.None? then None else Some(TraceContext(trace.value, span.value, options.value[0]))
  }

  lemma FormatIsEncode(n: byte)
    ensures (var opts := FormatUint(n); if |opts| == 1 then "0" + opts else opts) == Encode([n])
  {
    assert [n][1..] == [] && HexDigit(0) == '0';
  }

  /** What a header is made of. */
  lemma Parts(t: string, s: string, o: string)
    requires |t| == 32 && |s| == 16 && |o| == 2
    ensures var h := "00-" + t + "-" + s + "-" + o;
            && |h| == 55 && h[..2] == "00" && h[2] == '-'
            && h[3..][..TRACE_ID_END] == t && h[3..][TRACE_ID_END] == '-'
            && h[3..][SPAN_ID_START..SPAN_ID_END] == s && h[3..][SPAN_ID_END] == '-'
            && h[3..][TRACE_OPTIONS_START..TRACE_OPTIONS_END] == o
  {
    var h := "00-" + t + "-" + s + "-" + o;
    assert h[3..] == t + "-" + s + "-" + o;
    assert h[..2] == "00";
  }

  /** The formatted header is read back if both IDs are non-zero, and refused otherwise. */
  lemma ParseFormatted(c: TraceContext)
    requires |c.trace| == 16 && |c.span| == 8
    ensures ParseTraceparentHeader(FormatTraceparentHeader(c)) == if IsZero(c.trace) || IsZero(c.span) then None else Some(c)
  {
    FormatIsEncode(c.options);
    Parts(Encode(c.trace), Encode(c.span), Encode([c.options]));
    DecodeEncoded(c.trace);
    DecodeEncoded(c.span);
    DecodeEncoded([c.options]);
  }

  /** A header that is accepted is, but for the case of its digits, the one formatted from
      what was read, exactly if it has version 00. */
  lemma FormatParsed(header: string)
    requires ParseTraceparentHeader(header).Some?
    ensures var c := ParseTraceparentHeader(header).value;
            && |c.trace| == 16 && |c.span| == 8 && !IsZero(c.trace) && !IsZero(c.span)
            && (FormatTraceparentHeader(c) == Lower(header) <==> header[..2] == "00")
  {
    var c, h := ParseTraceparentHeader(header).value, header[3..];
    var t, s, o := h[..TRACE_ID_END], h[SPAN_ID_START..SPAN_ID_END], h[TRACE_OPTIONS_START..TRACE_OPTIONS_END];
    EncodeDecoded(t);
    EncodeDecoded(s);
    EncodeDecoded(o);
    FormatIsEncode(c.options);
    assert [c.options] == Decode(o).value;
    var f := FormatTraceparentHeader(c);
    assert f == "00-" + Lower(t) + "-" + Lower(s) + "-" + Lower(o);
    Parts(Lower(t), Lower(s), Lower(o));
    if header[..2] == "00" {
      LowerParts(header);
    }
    LowerZeros(header);
  }

  lemma LowerZeros(header: string)
    requires |header| >= 2
    ensures Lower(header)[..2] == "00" ==> header[..2] == "00"
  {
    var l := Lower(header)[..2];
    assert l[0] == LowerChar(header[0]) && l[1] == LowerChar(header[1]);
  }

  lemma LowerParts(header: string)
    requires |header| == 55 && header[..2] == "00" && header[2] == '-'
    requires header[3..][TRACE_ID_END] == '-' && header[3..][SPAN_ID_END] == '-'
    ensures var h := header[3..];
            Lower(header) == "00-" + Lower(h[..TRACE_ID_END]) + "-" + Lower(h[SPAN_ID_START..SPAN_ID_END]) + "-" +
                             Lower(h[TRACE_OPTIONS_START..TRACE_OPTIONS_END])
  {
    var h := header[3..];
    var t, s, o := h[..TRACE_ID_END], h[SPAN_ID_START..SPAN_ID_END], h[TRACE_OPTIONS_START..TRACE_OPTIONS_END];
    var l := "00-" + Lower(t) + "-" + Lower(s) + "-" + Lower(o);
    assert header[0] == header[..2][0] && header[1] == header[..2][1];
    forall i | 0 <= i < 55
      ensures Lower(header)[i] == l[i]
    {
      if i >= 3 {
        assert header[i] == h[i - 3];
      }
    }
  }
}
