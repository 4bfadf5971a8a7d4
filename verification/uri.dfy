/** Percent-encoding as `encodeURIComponent` performs it (section 19.2.6 of ECMA-262, URI handling
    functions), and the way a request URL's query is read back through `URLSearchParams`: the
    query state of the URL parser and application/x-www-form-urlencoded parsing (sections 4.4
    and 5.1 of the WHATWG URL Standard). */
module Uri {
  import opened Wrappers
  import opened Strings
  import Utf8
  import Seqs

  /** The characters `encodeURIComponent` leaves alone: letters, digits and `-_.!~*'()`. */
  predicate IsUnreserved(c: char) {
    ('A' <= c <= 'Z') || ('a' <= c <= 'z') || ('0' <= c <= '9')
    || c == '-' || c == '_' || c == '.' || c == '!' || c == '~' || c == '*' || c == '\'' || c == '(' || c == ')'
  }

  predicate IsHexDigit(c: char) {
    ('0' <= c <= '9') || ('A' <= c <= 'F') || ('a' <= c <= 'f')
  }

  predicate IsUpperHexDigit(c: char) {
    ('0' <= c <= '9') || ('A' <= c <= 'F')
  }

  /** Upper-case hexadecimal digit, as the encoder writes them. */
  function HexDigit(d: nat): (c: char)
    requires d < 16
    ensures IsHexDigit(c) && IsUnreserved(c)
    ensures IsUpperHexDigit(c)
    // the digit reads back as `d`
    ensures d < 10 <==> c <= '9'
    ensures c as int - (if d < 10 then '0' as int else 'A' as int - 10) == d
  {
    if d < 10 then ('0' as int + d) as char else ('A' as int + d - 10) as char
  }

  /** `%` followed by the two hexadecimal digits of `b`. */
  function PercentByte(b: Utf8.Byte): (r: string)
    ensures |r| == 3 && r[0] == '%' && IsHexDigit(r[1]) && IsHexDigit(r[2])
    ensures IsUpperHexDigit(r[1]) && IsUpperHexDigit(r[2])
  {
    ['%', HexDigit(b / 16), HexDigit(b % 16)]
  }

  function PercentBytes(bs: seq<Utf8.Byte>): (r: string)
    ensures |r| == 3 * |bs|
    ensures forall i :: 0 <= i < |r| ==> r[i] == '%' || IsUpperHexDigit(r[i])
    ensures UriSafe(r)
  {
    if |bs| == 0 then "" else PercentByte(bs[0]) + PercentBytes(bs[1..])
  }

  /** Every character is one the encoder may emit: an unreserved character or `%`. */
  predicate UriSafe(r: string) {
    forall i :: 0 <= i < |r| ==> IsUnreserved(r[i]) || r[i] == '%'
  }

  /** The shape of `encodeURIComponent` output: unreserved characters and `%XX` triples, whose
      digits are upper-case, only. */
  predicate WellEncoded(r: string) {
    && UriSafe(r)
    && (forall i :: 0 <= i < |r| && r[i] == '%' ==> i + 2 < |r| && IsUpperHexDigit(r[i + 1]) && IsUpperHexDigit(r[i + 2]))
  }

  lemma WellEncodedConcat(a: string, b: string)
    requires WellEncoded(a) && WellEncoded(b)
    ensures WellEncoded(a + b)
  {
    var ab := a + b;
    forall i | 0 <= i < |ab| && ab[i] == '%'
      ensures i + 2 < |ab| && IsUpperHexDigit(ab[i + 1]) && IsUpperHexDigit(ab[i + 2])
    {
      if i < |a| {
        assert a[i] == '%';
      } else {
        assert b[i - |a|] == '%';
      }
    }
  }

  lemma {:induction false} PercentBytesWellEncoded(bs: seq<Utf8.Byte>)
    ensures WellEncoded(PercentBytes(bs))
    decreases |bs|
  {
    if |bs| > 0 {
      PercentBytesWellEncoded(bs[1..]);
      WellEncodedConcat(PercentByte(bs[0]), PercentBytes(bs[1..]));
    }
  }

  /** How `encodeURIComponent` writes one code point: unreserved characters as themselves,
      everything else as the `%XX` triples of its UTF-8 bytes. */
  function EncodeCodePoint(c: char): (r: string)
    ensures WellEncoded(r)
    ensures IsUnreserved(c) <==> r == [c]
  {
    if IsUnreserved(c) then [c]
    else
      PercentBytesWellEncoded(Utf8.EncodeChar(c));
      PercentBytes(Utf8.EncodeChar(c))
  }

  /** `encodeURIComponent(s)` for a string of scalar values. */
  function EncodeUriComponent(s: string): (r: string)
    ensures WellEncoded(r)
    ensures |s| <= |r|
    ensures (forall i :: 0 <= i < |s| ==> IsUnreserved(s[i])) <==> r == s
    decreases |s|
  {
    if |s| == 0 then ""
    else
      var head := EncodeCodePoint(s[0]);
      var tail := EncodeUriComponent(s[1..]);
      WellEncodedConcat(head, tail);
      assert !IsUnreserved(s[0]) ==> |head| == 3 * |Utf8.EncodeChar(s[0])| >= 3;
      assert (forall i :: 0 <= i < |s| ==> IsUnreserved(s[i])) ==> head + tail == s by {
        if forall i :: 0 <= i < |s| ==> IsUnreserved(s[i]) {
          assert forall i :: 0 <= i < |s[1..]| ==> IsUnreserved(s[1..][i]);
          assert s == [s[0]] + s[1..];
        }
      }
      assert head + tail == s ==> forall i :: 0 <= i < |s| ==> IsUnreserved(s[i]) by {
        if head + tail == s {
          assert head == [s[0]];
          assert tail == s[1..];
        }
      }
      head + tail
  }

  /** The encoder works code point by code point: encoding a concatenation encodes each part. */
  lemma {:induction false} EncodeUriComponentConcat(a: string, b: string)
    ensures EncodeUriComponent(a + b) == EncodeUriComponent(a) + EncodeUriComponent(b)
    decreases |a|
  {
    if |a| == 0 {
      assert a + b == b;
    } else {
      assert (a + b)[0] == a[0];
      assert (a + b)[1..] == a[1..] + b;
      EncodeUriComponentConcat(a[1..], b);
      Seqs.ConcatAssoc(EncodeCodePoint(a[0]), EncodeUriComponent(a[1..]), EncodeUriComponent(b));
    }
  }

  // ---------------------------------------------------------------------------------------
  // Reading the query back

  /** The special-query percent-encode set (section 1.3 of the WHATWG URL Standard): C0 controls,
      space, `"`, `#`, `<`, `>`, `'`, and every code point above U+007E. */
  predicate InSpecialQuerySet(c: char) {
    c as int <= 0x20 || c == '"' || c == '#' || c == '<' || c == '>' || c == '\'' || c as int > 0x7E
  }

  function QueryEncodeChar(c: char): string {
    if InSpecialQuerySet(c) then PercentBytes(Utf8.EncodeChar(c)) else [c]
  }

  /** What the URL parser's query state stores for the query text of a special URL. */
  function QueryEncode(s: string): (r: string)
    decreases |s|
  {
    if |s| == 0 then "" else QueryEncodeChar(s[0]) + QueryEncode(s[1..])
  }

  /** The query a request URL carries when the target `target` is requested: the text after the
      first `?` and before any `#`, passed through the query state. */
  function QueryOf(target: string): string {
    match IndexOf(target, "?", 0)
    case None => ""
    case Some(i) =>
      var rest := target[i + 1..];
      match IndexOf(rest, "#", 0)
      case None => QueryEncode(rest)
      case Some(j) => QueryEncode(rest[..j])
  }

  /** Joins `parts` with `sep` between neighbours. */
  function Join(parts: seq<string>, sep: char): string
    requires |parts| >= 1
  {
    if |parts| == 1 then parts[0] else parts[0] + [sep] + Join(parts[1..], sep)
  }

  /** Splits `s` at every `sep` ("strictly split" in the WHATWG Infra Standard). */
  function Split(s: string, sep: char): (parts: seq<string>)
    ensures |parts| >= 1
    ensures forall i :: 0 <= i < |parts| ==> sep !in parts[i]
    ensures Join(parts, sep) == s
    decreases |s|
  {
    if |s| == 0 then [""]
    else
      var rest := Split(s[1..], sep);
      if s[0] == sep then
        assert [s[0]] + s[1..] == s;
        [""] + rest
      else
        var parts := [[s[0]] + rest[0]] + rest[1..];
        assert parts[1..] == rest[1..];
        assert s == [s[0]] + s[1..];
        parts
  }

  /** A part of an application/x-www-form-urlencoded string: a name and a value. */
  datatype Param = Param(name: string, value: string)

  /** `+` stands for a space in application/x-www-form-urlencoded data. */
  function ReplacePlus(s: string): (r: string)
    ensures |r| == |s|
    ensures forall i :: 0 <= i < |s| ==> r[i] == if s[i] == '+' then ' ' else s[i]
  {
    if |s| == 0 then "" else [if s[0] == '+' then ' ' else s[0]] + ReplacePlus(s[1..])
  }

  predicate IsHexByte(b: Utf8.Byte) {
    (0x30 <= b <= 0x39) || (0x41 <= b <= 0x46) || (0x61 <= b <= 0x66)
  }

  function HexByteValue(b: Utf8.Byte): (d: nat)
    requires IsHexByte(b)
    ensures d < 16
  {
    if b <= 0x39 then b - 0x30 else if b <= 0x46 then b - 0x41 + 10 else b - 0x61 + 10
  }

  /** Percent-decoding of bytes (section 1.3 of the WHATWG URL Standard): `%` and two hexadecimal
      digits become that byte; every other byte, a stray `%` included, is kept. */
  function PercentDecode(bs: seq<Utf8.Byte>): (r: seq<Utf8.Byte>)
    ensures |r| <= |bs|
    decreases |bs|
  {
    if |bs| == 0 then []
    else if bs[0] == 0x25 && |bs| >= 3 && IsHexByte(bs[1]) && IsHexByte(bs[2]) then
      [HexByteValue(bs[1]) * 16 + HexByteValue(bs[2])] + PercentDecode(bs[3..])
    else
      [bs[0]] + PercentDecode(bs[1..])
  }

  /** A name or value as the form-urlencoded parser decodes it. */
  function DecodeComponent(t: string): (r: string)
    // text with neither `+` nor an escape comes through as it is
    ensures '+' !in t && '%' !in t ==> r == t
  {
    assert '+' !in t && '%' !in t ==> Utf8.Decode(PercentDecode(Utf8.Encode(ReplacePlus(t)))) == t by {
      if '+' !in t && '%' !in t {
        NoPlus(t);
        EncodeNoPercent(t);
        PercentDecodeNoEscape(Utf8.Encode(t));
        Utf8.DecodeEncode(t);
      }
    }
    Utf8.Decode(PercentDecode(Utf8.Encode(ReplacePlus(t))))
  }

  /** UTF-8 puts the byte of `%` only where the text has a `%`. */
  lemma {:induction false} EncodeNoPercent(t: string)
    requires '%' !in t
    ensures 0x25 !in Utf8.Encode(t)
    decreases |t|
  {
    if |t| > 0 {
      assert t[0] != '%' && '%' !in t[1..];
      EncodeNoPercent(t[1..]);
      var head := Utf8.EncodeChar(t[0]);
      assert 0x25 !in head by {
        if |head| == 1 {
          assert head[0] == t[0] as int;
        }
      }
    }
  }

  /** Bytes without `%` are left alone by percent-decoding. */
  lemma {:induction false} PercentDecodeNoEscape(bs: seq<Utf8.Byte>)
    requires 0x25 !in bs
    ensures PercentDecode(bs) == bs
    decreases |bs|
  {
    if |bs| > 0 {
      assert bs[0] != 0x25 && 0x25 !in bs[1..];
      PercentDecodeNoEscape(bs[1..]);
      assert bs == [bs[0]] + bs[1..];
    }
  }

  /** One non-empty `&`-separated part: name before the first `=`, value after it. */
  function ParsePart(part: string): Param {
    match IndexOf(part, "=", 0)
    case None => Param(DecodeComponent(part), "")
    case Some(i) => Param(DecodeComponent(part[..i]), DecodeComponent(part[i + 1..]))
  }

  function ParseParts(parts: seq<string>): seq<Param> {
    if |parts| == 0 then []
    else if parts[0] == "" then ParseParts(parts[1..])
    else [ParsePart(parts[0])] + ParseParts(parts[1..])
  }

  /** application/x-www-form-urlencoded parsing, the list behind `URLSearchParams`. */
  function ParseForm(query: string): (r: seq<Param>)
    // a query without `&` is one parameter, or none when it is empty
    ensures '&' !in query ==> r == if query == "" then [] else [ParsePart(query)]
  {
    var parts := Split(query, '&');
    assert '&' !in query ==> parts == [query] by {
      if '&' !in query {
        SplitWithoutSeparator(query, '&');
      }
    }
    assert parts == [query] ==> ParseParts(parts) == ParseParts([query]);
    assert ParseParts([query]) == if query == "" then [] else [ParsePart(query)] by {
      assert [query][1..] == [];
    }
    ParseParts(parts)
  }

  /** The parts of `a`, a separator, then `b` are the parts of `a` followed by those of `b`. */
  lemma {:induction false} SplitConcat(a: string, b: string, sep: char)
    ensures Split(a + [sep] + b, sep) == Split(a, sep) + Split(b, sep)
    decreases |a|
  {
    if |a| == 0 {
      assert a + [sep] + b == [sep] + b;
      SplitCons(sep, b, sep);
    } else {
      var c, x := a[0], a[1..];
      var t := x + [sep] + b;
      assert a + [sep] + b == [c] + t;
      assert a == [c] + x;
      SplitConcat(x, b, sep);
      SplitCons(c, t, sep);
      SplitCons(c, x, sep);
      PrependConcat(c, Split(x, sep), Split(b, sep), sep);
    }
  }

  /** What a leading character does to the parts of the rest: a separator opens a new empty
      part, anything else joins the first part. */
  function Prepend(c: char, parts: seq<string>, sep: char): seq<string>
    requires |parts| >= 1
  {
    if c == sep then [""] + parts else [[c] + parts[0]] + parts[1..]
  }

  /** `Split` on a string with a known first character. */
  lemma SplitCons(c: char, t: string, sep: char)
    ensures Split([c] + t, sep) == Prepend(c, Split(t, sep), sep)
  {
    assert ([c] + t)[0] == c && ([c] + t)[1..] == t;
  }

  lemma PrependConcat(c: char, p: seq<string>, q: seq<string>, sep: char)
    requires |p| >= 1
    ensures Prepend(c, p + q, sep) == Prepend(c, p, sep) + q
  {
    if c != sep {
      assert (p + q)[1..] == p[1..] + q;
    }
  }

  lemma {:induction false} ParsePartsConcat(p: seq<string>, q: seq<string>)
    ensures ParseParts(p + q) == ParseParts(p) + ParseParts(q)
  {
    if |p| > 0 {
      assert (p + q)[0] == p[0];
      assert (p + q)[1..] == p[1..] + q;
      ParsePartsConcat(p[1..], q);
      if p[0] != "" {
        Seqs.ConcatAssoc([ParsePart(p[0])], ParseParts(p[1..]), ParseParts(q));
      }
    } else {
      assert p + q == q;
    }
  }

  /** Parameters separated by `&` are parsed independently and kept in order. */
  lemma ParseFormConcat(a: string, b: string)
    ensures ParseForm(a + ['&'] + b) == ParseForm(a) + ParseForm(b)
  {
    SplitConcat(a, b, '&');
    ParsePartsConcat(Split(a, '&'), Split(b, '&'));
  }

  /** `searchParams.get(name)`: the value of the first parameter called `name`, or null. */
  function SearchGet(params: seq<Param>, name: string): (r: Option<string>)
    ensures r.Some? <==> exists i :: 0 <= i < |params| && params[i].name == name
    ensures r.Some? ==> exists i :: 0 <= i < |params| && params[i] == Param(name, r.value)
                                    && forall j :: 0 <= j < i ==> params[j].name != name
  {
    if |params| == 0 then None
    else if params[0].name == name then Some(params[0].value)
    else
      var r := SearchGet(params[1..], name);
      assert forall i :: 1 <= i < |params| ==> params[i] == params[1..][i - 1];
      r
  }

  // ---------------------------------------------------------------------------------------
  // The round trip: what `encodeURIComponent` writes into a query, `searchParams.get` reads back

  predicate IsAscii(x: string) {
    forall i :: 0 <= i < |x| ==> x[i] as int < 0x80
  }

  /** An ASCII string encodes to its own code points, one byte each. */
  lemma {:induction false} AsciiEncode(x: string)
    requires IsAscii(x)
    ensures |Utf8.Encode(x)| == |x|
    ensures forall i :: 0 <= i < |x| ==> Utf8.Encode(x)[i] == x[i] as int
    decreases |x|
  {
    if |x| > 0 {
      AsciiEncode(x[1..]);
    }
  }

  lemma {:induction false} QueryEncodeConcat(a: string, b: string)
    ensures QueryEncode(a + b) == QueryEncode(a) + QueryEncode(b)
    decreases |a|
  {
    if |a| == 0 {
      assert a + b == b;
    } else {
      assert (a + b)[0] == a[0];
      assert (a + b)[1..] == a[1..] + b;
      QueryEncodeConcat(a[1..], b);
    }
  }

  /** The query state changes nothing outside the special-query set. */
  lemma {:induction false} QueryEncodeIdentity(x: string)
    requires forall i :: 0 <= i < |x| ==> !InSpecialQuerySet(x[i])
    ensures QueryEncode(x) == x
    decreases |x|
  {
    if |x| > 0 {
      QueryEncodeIdentity(x[1..]);
      assert x == [x[0]] + x[1..];
    }
  }

  lemma UriSafeConcat(a: string, b: string)
    requires UriSafe(a) && UriSafe(b)
    ensures UriSafe(a + b)
  {
  }

  /** The query state keeps encoder output encoder-shaped: its only change is `'` to `%27`. */
  lemma {:induction false} QueryEncodeSafe(x: string)
    requires UriSafe(x)
    ensures UriSafe(QueryEncode(x))
    decreases |x|
  {
    if |x| > 0 {
      assert UriSafe(x[1..]) by {
        assert forall i :: 0 <= i < |x[1..]| ==> x[1..][i] == x[i + 1];
      }
      QueryEncodeSafe(x[1..]);
      assert UriSafe(QueryEncodeChar(x[0])) by {
        assert IsUnreserved(x[0]) || x[0] == '%';
      }
      UriSafeConcat(QueryEncodeChar(x[0]), QueryEncode(x[1..]));
    }
  }

  lemma PercentByteDecode(b: Utf8.Byte, rest: seq<Utf8.Byte>)
    ensures PercentDecode(Utf8.Encode(PercentByte(b)) + rest) == [b] + PercentDecode(rest)
  {
    var t := PercentByte(b);
    AsciiEncode(t);
    var bs := Utf8.Encode(t) + rest;
    assert bs[0] == 0x25;
    assert bs[3..] == rest;
    HexDigitByte(b / 16);
    HexDigitByte(b % 16);
    assert bs[1] == HexDigit(b / 16) as int && bs[2] == HexDigit(b % 16) as int;
    assert HexByteValue(bs[1]) * 16 + HexByteValue(bs[2]) == b;
  }

  /** The byte of a digit the encoder writes is one the decoder reads back as the same value. */
  lemma HexDigitByte(d: nat)
    requires d < 16
    ensures IsHexByte(HexDigit(d) as int) && HexByteValue(HexDigit(d) as int) == d
  {
  }

  /** The bytes of a run of triples: those of the first triple, then those of the rest. */
  lemma PercentBytesStep(bs: seq<Utf8.Byte>, rest: seq<Utf8.Byte>)
    requires |bs| > 0
    ensures Utf8.Encode(PercentBytes(bs)) + rest
            == Utf8.Encode(PercentByte(bs[0])) + (Utf8.Encode(PercentBytes(bs[1..])) + rest)
  {
    var head := PercentByte(bs[0]);
    var tail := PercentBytes(bs[1..]);
    assert PercentBytes(bs) == head + tail;
    Utf8.EncodeConcat(head, tail);
    Seqs.ConcatAssoc(Utf8.Encode(head), Utf8.Encode(tail), rest);
  }

  lemma ConsAppend<T>(s: seq<T>, t: seq<T>)
    requires |s| > 0
    ensures [s[0]] + (s[1..] + t) == s + t
  {
    assert s == [s[0]] + s[1..];
  }

  lemma {:induction false} PercentBytesDecode(bs: seq<Utf8.Byte>, rest: seq<Utf8.Byte>)
    ensures PercentDecode(Utf8.Encode(PercentBytes(bs)) + rest) == bs + PercentDecode(rest)
    decreases |bs|
  {
    if |bs| == 0 {
      assert Utf8.Encode(PercentBytes(bs)) + rest == rest;
    } else {
      PercentBytesStep(bs, rest);
      PercentByteDecode(bs[0], Utf8.Encode(PercentBytes(bs[1..])) + rest);
      PercentBytesDecode(bs[1..], rest);
      ConsAppend(bs, PercentDecode(rest));
    }
  }

  lemma QueryEncodeSingle(c: char)
    ensures QueryEncode([c]) == QueryEncodeChar(c)
  {
    assert [c][1..] == [];
  }

  /** A byte other than `%` passes through percent-decoding. */
  lemma PercentDecodePlain(b: Utf8.Byte, rest: seq<Utf8.Byte>)
    requires b != 0x25
    ensures PercentDecode([b] + rest) == [b] + PercentDecode(rest)
  {
    assert ([b] + rest)[1..] == rest;
  }

  lemma EscapedDecode(c: char, rest: seq<Utf8.Byte>)
    requires !IsUnreserved(c)
    ensures PercentDecode(Utf8.Encode(QueryEncode(EncodeCodePoint(c))) + rest)
            == Utf8.EncodeChar(c) + PercentDecode(rest)
  {
    var u := Utf8.EncodeChar(c);
    assert EncodeCodePoint(c) == PercentBytes(u);
    QueryEncodeIdentity(PercentBytes(u));
    PercentBytesDecode(u, rest);
  }

  /** `'` is left alone by the encoder but escaped by the query state, as `%27`. */
  lemma QuoteDecode(rest: seq<Utf8.Byte>)
    ensures PercentDecode(Utf8.Encode(QueryEncode(EncodeCodePoint('\''))) + rest)
            == Utf8.EncodeChar('\'') + PercentDecode(rest)
  {
    var c := '\'';
    QueryEncodeSingle(c);
    assert Utf8.EncodeChar(c) == [0x27];
    assert QueryEncode(EncodeCodePoint(c)) == PercentByte(0x27) by {
      assert PercentBytes([0x27]) == PercentByte(0x27) + PercentBytes([]);
    }
    PercentByteDecode(0x27, rest);
  }

  lemma PlainDecode(c: char, rest: seq<Utf8.Byte>)
    requires IsUnreserved(c) && c != '\''
    ensures PercentDecode(Utf8.Encode(QueryEncode(EncodeCodePoint(c))) + rest)
            == Utf8.EncodeChar(c) + PercentDecode(rest)
  {
    QueryEncodeSingle(c);
    assert Utf8.Encode([c]) == Utf8.EncodeChar(c) by {
      assert Utf8.Encode([c]) == Utf8.EncodeChar(c) + Utf8.Encode([]);
    }
    assert Utf8.EncodeChar(c) == [c as int];
    PercentDecodePlain(c as int, rest);
  }

  /** One encoded code point, after the query state, percent-decodes to its UTF-8 bytes,
      whatever follows it. */
  lemma CodePointDecode(c: char, rest: seq<Utf8.Byte>)
    ensures PercentDecode(Utf8.Encode(QueryEncode(EncodeCodePoint(c))) + rest)
            == Utf8.EncodeChar(c) + PercentDecode(rest)
  {
    if !IsUnreserved(c) {
      EscapedDecode(c, rest);
    } else if c == '\'' {
      QuoteDecode(rest);
    } else {
      PlainDecode(c, rest);
    }
  }

  /** The query-state text of `encodeURIComponent(s)` percent-decodes to the UTF-8 bytes of `s`. */
  lemma {:induction false} PercentDecodeEncoded(s: string)
    ensures PercentDecode(Utf8.Encode(QueryEncode(EncodeUriComponent(s)))) == Utf8.Encode(s)
    decreases |s|
  {
    if |s| > 0 {
      var head := EncodeCodePoint(s[0]);
      var tail := EncodeUriComponent(s[1..]);
      QueryEncodeConcat(head, tail);
      Utf8.EncodeConcat(QueryEncode(head), QueryEncode(tail));
      CodePointDecode(s[0], Utf8.Encode(QueryEncode(tail)));
      PercentDecodeEncoded(s[1..]);
    }
  }

  /** Decoding a query component recovers exactly the string `encodeURIComponent` was given. */
  lemma ComponentRoundTrip(s: string)
    ensures DecodeComponent(QueryEncode(EncodeUriComponent(s))) == s
  {
    var q := QueryEncode(EncodeUriComponent(s));
    QueryEncodeSafe(EncodeUriComponent(s));
    NoSeparators(q);
    NoPlus(q);
    PercentDecodeEncoded(s);
    Utf8.DecodeEncode(s);
  }

  /** Text without `+` is left alone by the `+`-to-space step. */
  lemma NoPlus(t: string)
    requires '+' !in t
    ensures ReplacePlus(t) == t
  {
    assert forall i :: 0 <= i < |t| ==> t[i] != '+';
  }

  lemma NoSeparators(x: string)
    requires UriSafe(x)
    ensures '&' !in x && '=' !in x && '+' !in x && '#' !in x && '?' !in x
  {
  }

  lemma SplitWithoutSeparator(s: string, sep: char)
    requires sep !in s
    ensures Split(s, sep) == [s]
  {
  }

  /** The query of `route?rest` is `rest` through the query state, when `route` has no `?` and
      `rest` no `#`. */
  lemma QueryOfTarget(route: string, rest: string)
    requires '?' !in route && '#' !in rest
    ensures QueryOf(route + "?" + rest) == QueryEncode(rest)
  {
    var target := route + "?" + rest;
    assert OccursAt(target, "?", |route|);
    forall j: nat | j < |route|
      ensures !OccursAt(target, "?", j)
    {
      assert target[j] == route[j];
    }
    assert IndexOf(target, "?", 0) == Some(|route|);
    assert target[|route| + 1..] == rest;
    NotOccurring(rest, '#');
  }

  /** A character absent from `s` occurs nowhere in it as a one-character pattern. */
  lemma NotOccurring(s: string, c: char)
    requires c !in s
    ensures forall v: nat :: !OccursAt(s, [c], v)
  {
    forall v: nat | v + 1 <= |s|
      ensures !OccursAt(s, [c], v)
    {
      assert s[v..v + 1][0] == s[v];
    }
  }

  /** A query made of a single `name=value` part parses to that one parameter. */
  lemma ParseSinglePart(qn: string, qe: string)
    requires '&' !in qn && '=' !in qn && '&' !in qe
    ensures ParseForm(qn + "=" + qe) == [ParsePart(qn + "=" + qe)]
    ensures ParsePart(qn + "=" + qe) == Param(DecodeComponent(qn), DecodeComponent(qe))
  {
    var part := qn + "=" + qe;
    assert '&' !in part;
    SplitWithoutSeparator(part, '&');
    assert part[|qn|] == '=';
    assert ParseParts([part]) == [ParsePart(part)] + ParseParts([part][1..]);
    assert OccursAt(part, "=", |qn|);
    forall j: nat | j < |qn|
      ensures !OccursAt(part, "=", j)
    {
      assert part[j] == qn[j];
    }
    assert IndexOf(part, "=", 0) == Some(|qn|);
    assert part[..|qn|] == qn && part[|qn| + 1..] == qe;
  }

  lemma QueryEncodeConcat3(a: string, b: string, c: string)
    ensures QueryEncode(a + b + c) == QueryEncode(a) + QueryEncode(b) + QueryEncode(c)
  {
    QueryEncodeConcat(a + b, c);
    QueryEncodeConcat(a, b);
  }

  lemma QueryEncodeEquals()
    ensures QueryEncode("=") == "="
  {
    var eq := "=";
    assert QueryEncode(eq) == QueryEncodeChar(eq[0]) + QueryEncode(eq[1..]);
    assert eq[1..] == [];
  }

  /** The query state distributes over `name=enc`. */
  lemma QueryEncodeParam(name: string, enc: string)
    ensures QueryEncode(name + "=" + enc) == QueryEncode(name) + "=" + QueryEncode(enc)
  {
    QueryEncodeConcat3(name, "=", enc);
    QueryEncodeEquals();
  }

  /** The query of `route?name=enc` is the query-state text of `name`, `=`, and that of `enc`. */
  lemma QueryOfParam(route: string, name: string, enc: string)
    requires '?' !in route && UriSafe(name) && UriSafe(enc)
    ensures QueryOf(route + "?" + name + "=" + enc) == QueryEncode(name) + "=" + QueryEncode(enc)
  {
    var head, eq := route + "?", "=";
    var rest := name + eq + enc;
    Seqs.ConcatAssoc(head, name, eq);
    Seqs.ConcatAssoc(head, name + eq, enc);
    NoSeparators(name);
    NoSeparators(enc);
    assert '#' !in rest by {
      assert eq == ['='];
    }
    QueryOfTarget(route, rest);
    QueryEncodeParam(name, enc);
  }

  /** A single `name=value` query of encoder output parses to the decoded pair. */
  lemma ParseEncodedParam(name: string, enc: string)
    requires UriSafe(name) && UriSafe(enc)
    ensures ParseForm(QueryEncode(name) + "=" + QueryEncode(enc))
            == [Param(DecodeComponent(QueryEncode(name)), DecodeComponent(QueryEncode(enc)))]
  {
    var qn := QueryEncode(name);
    var qe := QueryEncode(enc);
    QueryEncodeSafe(name);
    QueryEncodeSafe(enc);
    NoSeparators(qn);
    NoSeparators(qe);
    ParseSinglePart(qn, qe);
  }

  /** A link `route?name=encodeURIComponent(s)`, requested and read back with
      `searchParams.get(name)`, yields `s` again, for every string `s`. */
  lemma QueryParamRoundTrip(route: string, name: string, s: string)
    requires '?' !in route
    requires name != "" && forall i :: 0 <= i < |name| ==> IsUnreserved(name[i])
    ensures SearchGet(ParseForm(QueryOf(route + "?" + name + "=" + EncodeUriComponent(s))), name) == Some(s)
  {
    var enc := EncodeUriComponent(s);
    assert EncodeUriComponent(name) == name;
    QueryOfParam(route, name, enc);
    ParseEncodedParam(name, enc);
    ComponentRoundTrip(name);
    ComponentRoundTrip(s);
    assert SearchGet([Param(name, s)], name) == Some(s);
  }
}
