/**
 * The client-side token payload decoder: takes segment 1 of a JWS compact
 * token (section 7.1 of RFC 7515), turns its base64url alphabet into the
 * standard base64 alphabet (sections 5 and 4 of RFC 4648), base64-decodes it,
 * writes every byte as a `%hh` escape, percent-decodes the escapes as UTF-8
 * (RFC 3629) and parses the text as JSON. Any failure yields "no value"; the
 * signature is never looked at.
 */
module Jwt {
  import opened Wrappers

  type byte = x: int | 0 <= x < 256

  /** A JSON value as `JSON.parse` produces it; an object is a map from keys to values. */
  datatype Json =
    | JNull
    | JBool(b: bool)
    | JNumber(n: real)
    | JString(s: string)
    | JArray(elems: seq<Json>)
    | JObject(members: map<string, Json>)

  /**
   * The three browser primitives the decoder calls, as total functions;
   * `None` is the exception each can throw. `atob` yields the bytes of the
   * binary string it returns (every character of it has a code below 256).
   */
  datatype Primitives = Primitives(
    atob: string -> Option<seq<byte>>,
    decodeUriComponent: string -> Option<string>,
    jsonParse: string -> Option<Json>)

  // ---------------------------------------------------------------------
  // String.prototype.split with a one-character separator

  /** The parts glued back together, one separator between neighbours. */
  function Join(parts: seq<string>, sep: char): string
    requires |parts| >= 1
  {
    if |parts| == 1 then parts[0] else parts[0] + [sep] + Join(parts[1..], sep)
  }

  /** String splitting on one separator character: the maximal separator-free pieces of `s`, in order. */
  function Split(s: string, sep: char): (parts: seq<string>)
    ensures |parts| >= 1
    ensures forall i :: 0 <= i < |parts| ==> sep !in parts[i]
    ensures Join(parts, sep) == s
  {
    if |s| == 0 then [""]
    else if s[0] == sep then
      var rest := Split(s[1..], sep);
      assert s == [sep] + s[1..];
      [""] + rest
    else
      var rest := Split(s[1..], sep);
      var parts := [[s[0]] + rest[0]] + rest[1..];
      assert parts[1..] == rest[1..];
      assert s == [s[0]] + s[1..];
      parts
  }

  lemma {:induction false} SplitNoSeparator(s: string, sep: char)
    requires sep !in s
    ensures Split(s, sep) == [s]
  {
    if |s| > 0 {
      assert sep !in s[1..] by {
        forall i | 0 <= i < |s[1..]| ensures s[1..][i] != sep {
          assert s[1..][i] == s[i + 1];
        }
      }
      SplitNoSeparator(s[1..], sep);
      assert [s[0]] + s[1..] == s;
    }
  }

  lemma {:induction false} SplitAfterPrefix(head: string, sep: char, tail: string)
    requires sep !in head
    ensures Split(head + [sep] + tail, sep) == [head] + Split(tail, sep)
  {
    var s := head + [sep] + tail;
    if |head| == 0 {
      assert s[0] == sep && s[1..] == tail;
    } else {
      assert s[0] == head[0] != sep;
      assert s[1..] == head[1..] + [sep] + tail;
      assert sep !in head[1..] by {
        forall i | 0 <= i < |head[1..]| ensures head[1..][i] != sep {
          assert head[1..][i] == head[i + 1];
        }
      }
      SplitAfterPrefix(head[1..], sep, tail);
      assert [head[0]] + head[1..] == head;
    }
  }

  /**
   * The second piece of the token split on `.`; there is none (the source
   * reads `undefined`) exactly when the token contains no `.`.
   */
  function PayloadSegment(token: string): (r: Option<string>)
    ensures r.Some? <==> '.' in token
    ensures r.Some? ==> '.' !in r.value
  {
    var parts := Split(token, '.');
    assert '.' !in token ==> |parts| == 1 by {
      if '.' !in token { SplitNoSeparator(token, '.'); }
    }
    assert '.' in token ==> |parts| >= 2 by {
      if |parts| == 1 { assert Join(parts, '.') == parts[0]; }
    }
    if |parts| >= 2 then Some(parts[1]) else None
  }

  /**
   * Segment 1 is found between the first and the second `.` (or the end),
   * whatever stands before it and after it.
   */
  lemma PayloadSegmentOf(header: string, payload: string, rest: string)
    requires '.' !in header && '.' !in payload
    requires rest == "" || rest[0] == '.'
    ensures PayloadSegment(header + "." + payload + rest) == Some(payload)
  {
    var token := header + "." + payload + rest;
    assert token == header + ['.'] + (payload + rest);
    SplitAfterPrefix(header, '.', payload + rest);
    if rest == "" {
      assert payload + rest == payload;
      SplitNoSeparator(payload, '.');
    } else {
      assert payload + rest == payload + ['.'] + rest[1..];
      SplitAfterPrefix(payload, '.', rest[1..]);
    }
  }

  // ---------------------------------------------------------------------
  // base64url alphabet to base64 alphabet: two global replacements, minus to plus, then underscore to slash

  /** A global replacement of one character by another. */
  function ReplaceAll(s: string, from: char, to: char): (r: string)
    ensures |r| == |s|
    ensures forall i :: 0 <= i < |s| ==> r[i] == (if s[i] == from then to else s[i])
  {
    if |s| == 0 then ""
    else [if s[0] == from then to else s[0]] + ReplaceAll(s[1..], from, to)
  }

  function ToStandardAlphabet(s: string): string
  {
    ReplaceAll(ReplaceAll(s, '-', '+'), '_', '/')
  }

  /** Every `-` becomes `+`, every `_` becomes `/`, and nothing else changes. */
  lemma TranslationPointwise(s: string)
    ensures |ToStandardAlphabet(s)| == |s|
    ensures forall i :: 0 <= i < |s| ==>
      ToStandardAlphabet(s)[i] == (if s[i] == '-' then '+' else if s[i] == '_' then '/' else s[i])
  {
  }

  lemma TranslationRemovesUrlCharacters(s: string)
    ensures '-' !in ToStandardAlphabet(s) && '_' !in ToStandardAlphabet(s)
  {
    var t := ToStandardAlphabet(s);
    TranslationPointwise(s);
    forall i | 0 <= i < |t| ensures t[i] != '-' && t[i] != '_' {
    }
  }

  lemma TranslationIdempotent(s: string)
    ensures ToStandardAlphabet(ToStandardAlphabet(s)) == ToStandardAlphabet(s)
  {
    var t := ToStandardAlphabet(s);
    TranslationRemovesUrlCharacters(s);
    TranslationPointwise(t);
    forall i | 0 <= i < |t| ensures ToStandardAlphabet(t)[i] == t[i] {
      assert t[i] != '-' && t[i] != '_';
    }
  }

  predicate IsAlphaNumeric(c: char)
  {
    'A' <= c <= 'Z' || 'a' <= c <= 'z' || '0' <= c <= '9'
  }

  /** The base64url alphabet of section 5 of RFC 4648, with the pad character. */
  predicate IsBase64UrlText(s: string)
  {
    forall i :: 0 <= i < |s| ==> IsAlphaNumeric(s[i]) || s[i] == '-' || s[i] == '_' || s[i] == '='
  }

  /** The base64 alphabet of section 4 of RFC 4648, with the pad character. */
  predicate IsBase64Text(s: string)
  {
    forall i :: 0 <= i < |s| ==> IsAlphaNumeric(s[i]) || s[i] == '+' || s[i] == '/' || s[i] == '='
  }

  /** The reverse translation, standard alphabet back to the URL-safe one. */
  function ToUrlAlphabet(s: string): string
  {
    ReplaceAll(ReplaceAll(s, '+', '-'), '/', '_')
  }

  /** The translation maps base64url text onto base64 text and can be undone. */
  lemma TranslationBetweenAlphabets(s: string)
    requires IsBase64UrlText(s)
    ensures IsBase64Text(ToStandardAlphabet(s))
    ensures ToUrlAlphabet(ToStandardAlphabet(s)) == s
  {
    var t := ToStandardAlphabet(s);
    TranslationPointwise(s);
    forall i | 0 <= i < |s| ensures ToUrlAlphabet(t)[i] == s[i] {
    }
  }

  // ---------------------------------------------------------------------
  // Writing bytes as %hh escapes: a percent sign, then the last two characters
  // of the byte's hexadecimal numeral with two zeros put in front of it

  function HexDigit(d: nat): (c: char)
    requires d < 16
  {
    if d < 10 then ('0' as int + d) as char else ('a' as int + d - 10) as char
  }

  predicate IsLowerHexDigit(c: char)
  {
    '0' <= c <= '9' || 'a' <= c <= 'f'
  }

  predicate IsHexDigit(c: char)
  {
    IsLowerHexDigit(c) || 'A' <= c <= 'F'
  }

  function HexValue(c: char): (v: nat)
    requires IsHexDigit(c)
    ensures v < 16
  {
    if '0' <= c <= '9' then c as int - '0' as int
    else if 'a' <= c <= 'f' then c as int - 'a' as int + 10
    else c as int - 'A' as int + 10
  }

  lemma HexDigitValue(d: nat)
    requires d < 16
    ensures IsLowerHexDigit(HexDigit(d)) && HexValue(HexDigit(d)) == d
  {
  }

  /** The numeral of `n` in base 16 as JavaScript writes it: lower-case digits, most significant first. */
  function JsHex(n: nat): (h: string)
    ensures |h| >= 1
    ensures forall i :: 0 <= i < |h| ==> IsLowerHexDigit(h[i])
    decreases n
  {
    if n < 16 then [HexDigit(n)] else JsHex(n / 16) + [HexDigit(n % 16)]
  }

  /** The number a string of hexadecimal digits denotes. */
  function HexNumeral(h: string): nat
    requires forall i :: 0 <= i < |h| ==> IsHexDigit(h[i])
  {
    if |h| == 0 then 0 else HexNumeral(h[..|h| - 1]) * 16 + HexValue(h[|h| - 1])
  }

  /** The base-16 numeral denotes the number and has no leading zero. */
  lemma {:induction false} JsHexValue(n: nat)
    ensures HexNumeral(JsHex(n)) == n
    ensures JsHex(n)[0] == '0' ==> n == 0
    decreases n
  {
    var h := JsHex(n);
    if n < 16 {
      HexDigitValue(n);
      assert h[..0] == "";
    } else {
      JsHexValue(n / 16);
      HexDigitValue(n % 16);
      assert h[..|h| - 1] == JsHex(n / 16);
      assert h[0] == JsHex(n / 16)[0];
    }
  }

  /** The escape the decoder writes for one byte. */
  function EscapeByte(b: byte): string
  {
    var padded := "00" + JsHex(b);
    "%" + padded[|padded| - 2..]
  }

  /** Every byte is written as `%` and exactly two lower-case hex digits that denote it. */
  lemma EscapeByteShape(b: byte)
    ensures |EscapeByte(b)| == 3 && EscapeByte(b)[0] == '%'
    ensures IsLowerHexDigit(EscapeByte(b)[1]) && IsLowerHexDigit(EscapeByte(b)[2])
    ensures HexValue(EscapeByte(b)[1]) * 16 + HexValue(EscapeByte(b)[2]) == b
  {
    var e := EscapeByte(b);
    if b < 16 {
      HexDigitValue(b);
      assert JsHex(b) == [HexDigit(b)];
      assert e == ['%', '0', HexDigit(b)];
    } else {
      HexDigitValue(b / 16);
      HexDigitValue(b % 16);
      assert JsHex(b / 16) == [HexDigit(b / 16)];
      assert JsHex(b) == [HexDigit(b / 16), HexDigit(b % 16)];
      assert e == ['%', HexDigit(b / 16), HexDigit(b % 16)];
    }
  }

  /** The escapes of the bytes, one after the other. */
  function PercentEncode(bytes: seq<byte>): (s: string)
    ensures |s| == 3 * |bytes|
  {
    if bytes == [] then ""
    else
      EscapeByteShape(bytes[0]);
      EscapeByte(bytes[0]) + PercentEncode(bytes[1..])
  }

  /**
   * The octets a string made only of `%hh` escapes stands for (either case of
   * hex digit), the first step of percent-decoding; `None` for anything else.
   */
  function PercentDecode(s: string): Option<seq<byte>>
    decreases |s|
  {
    if s == [] then Some([])
    else if |s| >= 3 && s[0] == '%' && IsHexDigit(s[1]) && IsHexDigit(s[2]) then
      match PercentDecode(s[3..])
      case None => None
      case Some(rest) => Some([HexValue(s[1]) * 16 + HexValue(s[2])] + rest)
    else None
  }

  /** The escaped string carries exactly the decoded bytes, in order. */
  lemma {:induction false} PercentRoundTrip(bytes: seq<byte>)
    ensures PercentDecode(PercentEncode(bytes)) == Some(bytes)
  {
    if bytes != [] {
      var s := PercentEncode(bytes);
      EscapeByteShape(bytes[0]);
      assert s[..3] == EscapeByte(bytes[0]);
      assert s[3..] == PercentEncode(bytes[1..]);
      PercentRoundTrip(bytes[1..]);
      assert [bytes[0]] + bytes[1..] == bytes;
    }
  }

  // ---------------------------------------------------------------------
  // decodeJWT

  /** The payload decoder, with `None` for the `null` its catch-all returns. */
  function DecodeJwt(p: Primitives, token: string): (r: Option<Json>)
    ensures r.Some? ==> '.' in token
    ensures r.Some? ==> p.atob(ToStandardAlphabet(PayloadSegment(token).value)).Some?
  {
    match PayloadSegment(token)
    case None => None
    case Some(segment) =>
      match p.atob(ToStandardAlphabet(segment))
      case None => None
      case Some(bytes) =>
        match p.decodeUriComponent(PercentEncode(bytes))
        case None => None
        case Some(text) => p.jsonParse(text)
  }

  /** A token without `.` has no segment 1, so reading it fails and the result is null. */
  lemma NoSeparatorYieldsNull(p: Primitives, token: string)
    requires '.' !in token
    ensures DecodeJwt(p, token) == None
  {
    SplitNoSeparator(token, '.');
  }

  /** Only segment 1 influences the result: header and trailing segments are ignored. */
  lemma OnlyPayloadMatters(p: Primitives, header1: string, header2: string, payload: string,
                           rest1: string, rest2: string)
    requires '.' !in header1 && '.' !in header2 && '.' !in payload
    requires rest1 == "" || rest1[0] == '.'
    requires rest2 == "" || rest2[0] == '.'
    ensures DecodeJwt(p, header1 + "." + payload + rest1) == DecodeJwt(p, header2 + "." + payload + rest2)
  {
    PayloadSegmentOf(header1, payload, rest1);
    PayloadSegmentOf(header2, payload, rest2);
  }

  /** Each stage's failure is the decoder's failure. */
  lemma StageFailuresYieldNull(p: Primitives, token: string)
    requires PayloadSegment(token).Some?
    ensures p.atob(ToStandardAlphabet(PayloadSegment(token).value)).None? ==> DecodeJwt(p, token) == None
    ensures forall bytes ::
      (p.atob(ToStandardAlphabet(PayloadSegment(token).value)) == Some(bytes) &&
       p.decodeUriComponent(PercentEncode(bytes)).None?) ==> DecodeJwt(p, token) == None
    ensures forall bytes, text ::
      (p.atob(ToStandardAlphabet(PayloadSegment(token).value)) == Some(bytes) &&
       p.decodeUriComponent(PercentEncode(bytes)) == Some(text) &&
       p.jsonParse(text).None?) ==> DecodeJwt(p, token) == None
  {
  }

  /** What the browser does with the empty string: `atob` and `decodeURIComponent` give back
      the empty string and `JSON.parse` throws. */
  predicate EmptyInputBehaviour(p: Primitives)
  {
    p.atob("") == Some([]) && p.decodeUriComponent("") == Some("") && p.jsonParse("") == None
  }

  /** An empty segment 1 (`"h..s"`, `"h."`) yields null. */
  lemma EmptyPayloadYieldsNull(p: Primitives, header: string, rest: string)
    requires EmptyInputBehaviour(p)
    requires '.' !in header
    requires rest == "" || rest[0] == '.'
    ensures DecodeJwt(p, header + "." + rest) == None
  {
    PayloadSegmentOf(header, "", rest);
    assert header + "." + "" + rest == header + "." + rest;
    assert ToStandardAlphabet("") == "";
  }

  /** The payload is decoded from the full byte sequence `atob` returned. */
  lemma DecodedFromPayloadBytes(p: Primitives, header: string, payload: string, rest: string,
                                bytes: seq<byte>, text: string)
    requires '.' !in header && '.' !in payload
    requires rest == "" || rest[0] == '.'
    requires p.atob(ToStandardAlphabet(payload)) == Some(bytes)
    requires p.decodeUriComponent(PercentEncode(bytes)) == Some(text)
    ensures DecodeJwt(p, header + "." + payload + rest) == p.jsonParse(text)
    ensures PercentDecode(PercentEncode(bytes)) == Some(bytes)
  {
    PayloadSegmentOf(header, payload, rest);
    PercentRoundTrip(bytes);
  }
}
