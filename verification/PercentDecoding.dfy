/** `decodeURIComponent` (section 2.1 of RFC 3986 percent-encoding, decoded as
    UTF-8 the way ECMAScript's Decode operation does), and `encodeURIComponent`
    as its partner. Characters are Unicode scalar values; bytes are naturals
    below 256. */
module PercentDecoding {
  import opened Base

  /** What `decodeURIComponent` throws on a bad escape or bad UTF-8. */
  const UriMalformed := Error("URIError", "URI malformed")

  predicate IsHexDigit(c: char) {
    ('0' <= c <= '9') || ('a' <= c <= 'f') || ('A' <= c <= 'F')
  }

  function HexValue(c: char): (v: nat)
    requires IsHexDigit(c)
    ensures v < 16
  {
    if '0' <= c <= '9' then c as nat - '0' as nat
    else if 'a' <= c <= 'f' then c as nat - 'a' as nat + 10
    else c as nat - 'A' as nat + 10
  }

  /** The upper-case hexadecimal digit `encodeURIComponent` writes for `v`. */
  function HexDigit(v: nat): (c: char)
    requires v < 16
    ensures IsHexDigit(c) && HexValue(c) == v
  {
    if v < 10 then ('0' as nat + v) as char else ('A' as nat + v - 10) as char
  }

  /** The byte written as `%XY` at the head of `s`, if `s` starts with such an escape. */
  function EscapedByte(s: string): (r: Option<nat>)
    ensures r.Some? <==> |s| >= 3 && s[0] == '%' && IsHexDigit(s[1]) && IsHexDigit(s[2])
    ensures r.Some? ==> r.value < 256
  {
    if |s| >= 3 && s[0] == '%' && IsHexDigit(s[1]) && IsHexDigit(s[2])
    then Some(HexValue(s[1]) * 16 + HexValue(s[2]))
    else None
  }

  predicate IsByte(b: nat) {
    b < 256
  }

  predicate IsContinuation(b: nat) {
    0x80 <= b < 0xC0
  }

  /** How many bytes the UTF-8 sequence led by `b` (at least 0x80) has; 0 when
      `b` cannot lead one (a continuation byte or 0xF8 and above). */
  function SequenceLength(b: nat): (n: nat)
    ensures n == 0 || 2 <= n <= 4
  {
    if 0xC0 <= b < 0xE0 then 2
    else if 0xE0 <= b < 0xF0 then 3
    else if 0xF0 <= b < 0xF8 then 4
    else 0
  }

  /** Reads `count` escaped continuation bytes from the head of `s`. */
  function Continuations(s: string, count: nat): (r: Result<seq<nat>>)
    ensures r.Ok? ==> |r.value| == count && 3 * count <= |s|
    ensures r.Ok? ==> forall k :: 0 <= k < count ==> IsContinuation(r.value[k])
    ensures r.Err? ==> r.error == UriMalformed
    decreases count
  {
    if count == 0 then Ok([])
    else
      match EscapedByte(s)
      case None => Err(UriMalformed)
      case Some(b) =>
        if !IsContinuation(b) then Err(UriMalformed)
        else
          var rest :- Continuations(s[3..], count - 1);
          Ok([b] + rest)
  }

  /** The smallest scalar value a sequence of `n` bytes may encode (shorter forms are overlong). */
  function LeastScalar(n: nat): nat {
    if n == 2 then 0x80 else if n == 3 then 0x800 else 0x10000
  }

  /** The six payload bits of a continuation byte. */
  function Low(b: nat): int {
    b as int - 0x80
  }

  /** The number a lead byte and its continuation bytes spell. */
  function CodePoint(lead: nat, cont: seq<nat>): int
    requires |cont| == SequenceLength(lead) - 1 >= 1
  {
    var b: int := lead;
    if |cont| == 1 then (b - 0xC0) * 64 + Low(cont[0])
    else if |cont| == 2 then (b - 0xE0) * 4096 + Low(cont[0]) * 64 + Low(cont[1])
    else (b - 0xF0) * 0x40000 + Low(cont[0]) * 4096 + Low(cont[1]) * 64 + Low(cont[2])
  }

  predicate IsScalar(cp: int) {
    (0 <= cp < 0xD800) || (0xE000 <= cp < 0x110000)
  }

  /** The character a multi-byte sequence encodes, rejecting overlong forms,
      surrogates and values above U+10FFFF. */
  function Scalar(lead: nat, cont: seq<nat>): (r: Result<char>)
    requires |cont| == SequenceLength(lead) - 1 >= 1
    ensures r.Ok? <==> LeastScalar(|cont| + 1) <= CodePoint(lead, cont) && IsScalar(CodePoint(lead, cont))
    ensures r.Ok? ==> r.value as int == CodePoint(lead, cont)
    ensures r.Err? ==> r.error == UriMalformed
  {
    var cp := CodePoint(lead, cont);
    if LeastScalar(|cont| + 1) <= cp && IsScalar(cp) then Ok(cp as char) else Err(UriMalformed)
  }

  /** `decodeURIComponent(s)`. */
  function Decode(s: string): (r: Result<string>)
    ensures r.Err? ==> r.error == UriMalformed
    decreases |s|
  {
    if |s| == 0 then Ok([])
    else if s[0] != '%' then
      var rest :- Decode(s[1..]);
      Ok([s[0]] + rest)
    else
      match EscapedByte(s)
      case None => Err(UriMalformed)
      case Some(b) =>
        if b < 0x80 then
          var rest :- Decode(s[3..]);
          Ok([b as char] + rest)
        else
          var n := SequenceLength(b);
          if n == 0 then Err(UriMalformed)
          else
            var cont :- Continuations(s[3..], n - 1);
            var c :- Scalar(b, cont);
            var rest :- Decode(s[3 * n..]);
            Ok([c] + rest)
  }

  /** The characters `encodeURIComponent` leaves as they are. */
  predicate IsUnreserved(c: char) {
    || ('A' <= c <= 'Z') || ('a' <= c <= 'z') || ('0' <= c <= '9')
    || c == '-' || c == '_' || c == '.' || c == '!' || c == '~' || c == '*'
    || c == '\'' || c == '(' || c == ')'
  }

  /** The UTF-8 encoding of one character. */
  function Utf8(c: char): (bs: seq<nat>)
    ensures 1 <= |bs| <= 4
    ensures forall k :: 0 <= k < |bs| ==> IsByte(bs[k])
  {
    var cp := c as int;
    if cp < 0x80 then [cp]
    else if cp < 0x800 then [0xC0 + cp / 64, 0x80 + cp % 64]
    else if cp < 0x10000 then [0xE0 + cp / 4096, 0x80 + (cp / 64) % 64, 0x80 + cp % 64]
    else [0xF0 + cp / 0x40000, 0x80 + (cp / 4096) % 64, 0x80 + (cp / 64) % 64, 0x80 + cp % 64]
  }

  /** `%XY` for every byte, upper-case hex. */
  function Escapes(bs: seq<nat>): (s: string)
    requires forall k :: 0 <= k < |bs| ==> IsByte(bs[k])
    ensures |s| == 3 * |bs|
    decreases |bs|
  {
    if |bs| == 0 then []
    else
      assert IsByte(bs[0]);
      ['%', HexDigit(bs[0] / 16), HexDigit(bs[0] % 16)] + Escapes(bs[1..])
  }

  function EncodeChar(c: char): string {
    if IsUnreserved(c) then [c] else Escapes(Utf8(c))
  }

  /** `encodeURIComponent(p)`. */
  function Encode(p: string): string
    decreases |p|
  {
    if |p| == 0 then [] else EncodeChar(p[0]) + Encode(p[1..])
  }

  // ---------------------------------------------------------------------------
  // Properties

  /** Text without any `%` decodes to itself. */
  lemma {:induction false} DecodeWithoutPercent(s: string)
    requires Lacks(s, '%')
    ensures Decode(s) == Ok(s)
    decreases |s|
  {
    if |s| > 0 {
      DecodeWithoutPercent(s[1..]);
      assert [s[0]] + s[1..] == s;
    }
  }

  /** A `%` that is not followed by two hexadecimal digits makes decoding fail,
      wherever it stands. */
  lemma {:induction false} MalformedEscapeFails(s: string, i: nat)
    requires i < |s| && s[i] == '%'
    requires !(i + 2 < |s| && IsHexDigit(s[i + 1]) && IsHexDigit(s[i + 2]))
    ensures Decode(s) == Err(UriMalformed)
    decreases |s|
  {
    if s[0] != '%' {
      MalformedEscapeFails(s[1..], i - 1);
    } else if i == 0 {
    } else {
      match EscapedByte(s)
      case None =>
      case Some(b) =>
        if b < 0x80 {
          MalformedEscapeFails(s[3..], i - 3);
        } else {
          var n := SequenceLength(b);
          if n != 0 {
            var cont := Continuations(s[3..], n - 1);
            if cont.Ok? {
              ContinuationsWellFormed(s, 3, n - 1);
              if i >= 3 * n && Scalar(b, cont.value).Ok? {
                MalformedEscapeFails(s[3 * n..], i - 3 * n);
              }
            }
          }
        }
    }
  }

  /** Where reading continuation bytes from `s[off..]` succeeds, every `%` it
      passed over starts a well-formed escape, three characters apart. */
  lemma {:induction false} ContinuationsWellFormed(s: string, off: nat, count: nat)
    requires off <= |s| && Continuations(s[off..], count).Ok?
    ensures forall q :: off <= q < off + 3 * count && s[q] == '%' ==>
      (q - off) % 3 == 0 && q + 2 < |s| && IsHexDigit(s[q + 1]) && IsHexDigit(s[q + 2])
    decreases count
  {
    if count > 0 {
      assert s[off..][3..] == s[off + 3..];
      ContinuationsWellFormed(s, off + 3, count - 1);
      assert s[off..][0] == s[off] && s[off..][1] == s[off + 1] && s[off..][2] == s[off + 2];
    }
  }

  lemma HexDigitsOfByte(b: nat)
    requires IsByte(b)
    ensures HexValue(HexDigit(b / 16)) * 16 + HexValue(HexDigit(b % 16)) == b
  {
  }

  /** One escaped byte reads back as itself. */
  lemma EscapeReadsBack(b: nat, tail: string)
    requires IsByte(b)
    ensures EscapedByte(['%', HexDigit(b / 16), HexDigit(b % 16)] + tail) == Some(b)
  {
    var s := ['%', HexDigit(b / 16), HexDigit(b % 16)] + tail;
    assert s[1] == HexDigit(b / 16) && s[2] == HexDigit(b % 16);
    HexDigitsOfByte(b);
  }

  /** Escaping several bytes starts with escaping the first. */
  lemma EscapesHead(bs: seq<nat>, rest: string)
    requires |bs| > 0 && forall k :: 0 <= k < |bs| ==> IsByte(bs[k])
    ensures IsByte(bs[0])
    ensures Escapes(bs) + rest == ['%', HexDigit(bs[0] / 16), HexDigit(bs[0] % 16)] + (Escapes(bs[1..]) + rest)
  {
    assert IsByte(bs[0]);
  }

  /** The first of several escaped bytes reads back as itself. */
  lemma EscapedByteOfEscapes(bs: seq<nat>, rest: string)
    requires |bs| > 0 && forall k :: 0 <= k < |bs| ==> IsByte(bs[k])
    ensures EscapedByte(Escapes(bs) + rest) == Some(bs[0])
    ensures (Escapes(bs) + rest)[3..] == Escapes(bs[1..]) + rest
  {
    EscapesHead(bs, rest);
    var head := ['%', HexDigit(bs[0] / 16), HexDigit(bs[0] % 16)];
    var tail := Escapes(bs[1..]) + rest;
    EscapeReadsBack(bs[0], tail);
    assert (head + tail)[3..] == tail;
  }

  /** Escaped continuation bytes read back as themselves. */
  lemma {:induction false} ContinuationsOfEscapes(bs: seq<nat>, rest: string)
    requires forall k :: 0 <= k < |bs| ==> IsByte(bs[k]) && IsContinuation(bs[k])
    ensures Continuations(Escapes(bs) + rest, |bs|) == Ok(bs)
    decreases |bs|
  {
    if |bs| > 0 {
      EscapedByteOfEscapes(bs, rest);
      ContinuationsOfEscapes(bs[1..], rest);
      assert [bs[0]] + bs[1..] == bs;
    }
  }

  /** The bytes `Utf8` writes for a non-ASCII character form a sequence the
      decoder accepts and maps back to that character. */
  lemma Utf8Decodes(c: char)
    requires c as int >= 0x80
    ensures SequenceLength(Utf8(c)[0]) == |Utf8(c)|
    ensures forall k :: 1 <= k < |Utf8(c)| ==> IsContinuation(Utf8(c)[k])
    ensures Scalar(Utf8(c)[0], Utf8(c)[1..]) == Ok(c)
  {
    var cp := c as int;
    if cp < 0x800 {
      TwoBytes(cp);
    } else if cp < 0x10000 {
      ThreeBytes(cp);
    } else {
      FourBytes(cp);
    }
  }

  lemma TwoBytes(cp: int)
    requires 0x80 <= cp < 0x800
    ensures var bs := [0xC0 + cp / 64, 0x80 + cp % 64];
      SequenceLength(bs[0]) == 2 && IsContinuation(bs[1]) && CodePoint(bs[0], bs[1..]) == cp
  {
    var q, r := cp / 64, cp % 64;
    assert cp == q * 64 + r && 0 <= r < 64;
  }

  lemma ThreeBytes(cp: int)
    requires 0x800 <= cp < 0x10000
    ensures var bs := [0xE0 + cp / 4096, 0x80 + (cp / 64) % 64, 0x80 + cp % 64];
      SequenceLength(bs[0]) == 3 && IsContinuation(bs[1]) && IsContinuation(bs[2])
      && CodePoint(bs[0], bs[1..]) == cp
  {
    var q1, r1 := cp / 64, cp % 64;
    var q2, r2 := q1 / 64, q1 % 64;
    assert cp == q1 * 64 + r1 && 0 <= r1 < 64;
    assert q1 == q2 * 64 + r2 && 0 <= r2 < 64;
    assert cp / 4096 == q2;
  }

  lemma FourBytes(cp: int)
    requires 0x10000 <= cp < 0x110000
    ensures var bs := [0xF0 + cp / 0x40000, 0x80 + (cp / 4096) % 64, 0x80 + (cp / 64) % 64, 0x80 + cp % 64];
      SequenceLength(bs[0]) == 4 && IsContinuation(bs[1]) && IsContinuation(bs[2]) && IsContinuation(bs[3])
      && CodePoint(bs[0], bs[1..]) == cp
  {
    var q1, r1 := cp / 64, cp % 64;
    var q2, r2 := q1 / 64, q1 % 64;
    var q3, r3 := q2 / 64, q2 % 64;
    assert cp == q1 * 64 + r1 && 0 <= r1 < 64;
    assert q1 == q2 * 64 + r2 && 0 <= r2 < 64;
    assert q2 == q3 * 64 + r3 && 0 <= r3 < 64;
    assert cp / 4096 == q2;
    assert cp / 0x40000 == q3;
  }

  /** Decoding an encoded character yields the character, then decodes on. */
  lemma DecodeEncodeChar(c: char, rest: string)
    ensures Decode(EncodeChar(c) + rest) ==
      (match Decode(rest) case Ok(t) => Ok([c] + t) case Err(e) => Err(e))
  {
    if IsUnreserved(c) {
      DecodeUnreserved(c, rest);
    } else if c as int < 0x80 {
      DecodeOneEscape(c, rest);
    } else {
      DecodeEscapes(c, rest);
    }
  }

  lemma DecodeUnreserved(c: char, rest: string)
    requires IsUnreserved(c)
    ensures Decode(EncodeChar(c) + rest) ==
      (match Decode(rest) case Ok(t) => Ok([c] + t) case Err(e) => Err(e))
  {
    var s := EncodeChar(c) + rest;
    assert s[0] == c && s[1..] == rest;
  }

  lemma DecodeOneEscape(c: char, rest: string)
    requires !IsUnreserved(c) && c as int < 0x80
    ensures Decode(EncodeChar(c) + rest) ==
      (match Decode(rest) case Ok(t) => Ok([c] + t) case Err(e) => Err(e))
  {
    var s := EncodeChar(c) + rest;
    EscapedByteOfEscapes(Utf8(c), rest);
    assert s[3..] == rest;
  }

  lemma DecodeEscapes(c: char, rest: string)
    requires !IsUnreserved(c) && c as int >= 0x80
    ensures Decode(EncodeChar(c) + rest) ==
      (match Decode(rest) case Ok(t) => Ok([c] + t) case Err(e) => Err(e))
  {
    var s := EncodeChar(c) + rest;
    var bs := Utf8(c);
    EscapedByteOfEscapes(bs, rest);
    Utf8Decodes(c);
    assert s[3..] == Escapes(bs[1..]) + rest;
    ContinuationsOfEscapes(bs[1..], rest);
    assert s[3 * |bs|..] == rest;
  }

  /** Percent-decoding undoes `encodeURIComponent`. */
  lemma {:induction false} DecodeEncode(p: string)
    ensures Decode(Encode(p)) == Ok(p)
    decreases |p|
  {
    if |p| > 0 {
      DecodeEncode(p[1..]);
      DecodeEncodeChar(p[0], Encode(p[1..]));
      assert [p[0]] + p[1..] == p;
    }
  }
}
