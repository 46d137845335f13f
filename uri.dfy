/** `encodeURIComponent`: every character other than those ECMAScript leaves unescaped (letters,
    digits and `-_.!~*'()`, the unreserved set of RFC 2396) becomes the percent-encoded
    (section 2.1 of RFC 3986) UTF-8 bytes of its code point, with upper-case hex digits. A decoder
    written independently shows that the encoding loses nothing. */
module Uri {
  import opened Wrappers

  predicate Unreserved(c: char) {
    || 'A' <= c <= 'Z' || 'a' <= c <= 'z' || '0' <= c <= '9'
    || c == '-' || c == '_' || c == '.' || c == '!' || c == '~' || c == '*' || c == '\'' || c == '(' || c == ')'
  }

  predicate IsByte(b: int) {
    0 <= b < 256
  }

  predicate AllBytes(bytes: seq<int>) {
    forall i :: 0 <= i < |bytes| ==> IsByte(bytes[i])
  }

  /** The upper-case hex digit of `d`. */
  function HexDigit(d: int): (c: char)
    requires 0 <= d < 16
    ensures '0' <= c <= '9' || 'A' <= c <= 'F'
  {
    if d < 10 then ('0' as int + d) as char else ('A' as int + d - 10) as char
  }

  /** The value of an upper-case hex digit. */
  function HexValue(c: char): Option<int> {
    if '0' <= c <= '9' then Some(c as int - '0' as int)
    else if 'A' <= c <= 'F' then Some(c as int - 'A' as int + 10)
    else None
  }

  lemma HexValueOfDigit(d: int)
    requires 0 <= d < 16
    ensures HexValue(HexDigit(d)) == Some(d)
  {
  }

  /** The UTF-8 bytes of a code point (section 3 of RFC 3629). */
  function Utf8(c: char): (bytes: seq<int>)
    ensures 1 <= |bytes| <= 4 && AllBytes(bytes)
  {
    var cp := c as int;
    if cp < 0x80 then [cp]
    else if cp < 0x800 then [0xC0 + cp / 64, 0x80 + cp % 64]
    else if cp < 0x10000 then [0xE0 + cp / 4096, 0x80 + (cp / 64) % 64, 0x80 + cp % 64]
    else [0xF0 + cp / 262144, 0x80 + (cp / 4096) % 64, 0x80 + (cp / 64) % 64, 0x80 + cp % 64]
  }

  /** `%XY` for each byte. */
  function PercentEncode(bytes: seq<int>): (r: string)
    requires AllBytes(bytes)
    ensures |r| == 3 * |bytes|
    ensures forall i :: 0 <= i < |r| ==> r[i] == '%' || '0' <= r[i] <= '9' || 'A' <= r[i] <= 'F'
  {
    if bytes == [] then []
    else ['%', HexDigit(bytes[0] / 16), HexDigit(bytes[0] % 16)] + PercentEncode(bytes[1..])
  }

  function EncodeChar(c: char): (r: string)
    ensures '&' !in r && '=' !in r
    ensures r != []
  {
    if Unreserved(c) then [c] else PercentEncode(Utf8(c))
  }

  /** `encodeURIComponent(s)`. The result never holds `&` or `=`, so it can stand as a key or a
      value of a query string; a string of unreserved characters is its own encoding. */
  function EncodeURIComponent(s: string): (r: string)
    ensures '&' !in r && '=' !in r
    ensures (forall i :: 0 <= i < |s| ==> Unreserved(s[i])) ==> r == s
  {
    if s == [] then [] else EncodeChar(s[0]) + EncodeURIComponent(s[1..])
  }

  /** The number of bytes a UTF-8 sequence with this lead byte has; None for a byte that cannot
      lead one. */
  function SequenceLength(lead: int): Option<nat> {
    if 0 <= lead < 0x80 then Some(1)
    else if 0xC0 <= lead < 0xE0 then Some(2)
    else if 0xE0 <= lead < 0xF0 then Some(3)
    else if 0xF0 <= lead < 0xF8 then Some(4)
    else None
  }

  /** Reads `n` percent-encoded bytes from the start of `t`. */
  function ReadBytes(t: string, n: nat): Option<seq<int>> {
    if n == 0 then Some([])
    else if |t| < 3 || t[0] != '%' then None
    else match (HexValue(t[1]), HexValue(t[2]), ReadBytes(t[3..], n - 1))
      case (Some(h), Some(l), Some(rest)) => Some([16 * h + l] + rest)
      case _ => None
  }

  predicate Continuation(b: int) {
    0x80 <= b < 0xC0
  }

  /** The code point a UTF-8 sequence of one to four bytes spells. */
  function Assemble(bytes: seq<int>): int
    requires 1 <= |bytes| <= 4
  {
    if |bytes| == 1 then bytes[0]
    else if |bytes| == 2 then (bytes[0] - 0xC0) * 64 + (bytes[1] - 0x80)
    else if |bytes| == 3 then (bytes[0] - 0xE0) * 4096 + (bytes[1] - 0x80) * 64 + (bytes[2] - 0x80)
    else (bytes[0] - 0xF0) * 262144 + (bytes[1] - 0x80) * 4096 + (bytes[2] - 0x80) * 64 + (bytes[3] - 0x80)
  }

  predicate IsScalar(cp: int) {
    0 <= cp < 0xD800 || 0xE000 <= cp < 0x110000
  }

  /** Reads one encoded character from the start of `t` (which starts with '%'): the character
      and how many characters of `t` it took. */
  function DecodeSequence(t: string): (r: Option<(char, nat)>)
    ensures r.Some? ==> 3 <= r.value.1 <= |t|
  {
    if |t| < 3 then None
    else match ReadBytes(t, 1)
      case None => None
      case Some(lead) =>
        match SequenceLength(lead[0])
        case None => None
        case Some(n) =>
          if |t| < 3 * n then None
          else match ReadBytes(t, n)
            case None => None
            case Some(bytes) =>
              if |bytes| == n && (forall i :: 1 <= i < n ==> Continuation(bytes[i])) && IsScalar(Assemble(bytes))
              then Some((Assemble(bytes) as char, 3 * n))
              else None
  }

  /** Undoes the percent-encoding; None for text that is not a well-formed encoding. */
  function Decode(t: string): Option<string>
    decreases |t|
  {
    if t == [] then Some([])
    else if t[0] != '%' then
      match Decode(t[1..])
      case Some(rest) => Some([t[0]] + rest)
      case None => None
    else
      match DecodeSequence(t)
      case None => None
      case Some((c, k)) =>
        match Decode(t[k..])
        case Some(rest) => Some([c] + rest)
        case None => None
  }

  lemma {:induction false} ReadEncodedBytes(bytes: seq<int>, rest: string)
    requires AllBytes(bytes)
    ensures ReadBytes(PercentEncode(bytes) + rest, |bytes|) == Some(bytes)
  {
    if bytes != [] {
      var b := bytes[0];
      var head := ['%', HexDigit(b / 16), HexDigit(b % 16)];
      var tail := PercentEncode(bytes[1..]) + rest;
      PercentEncodeCons(bytes);
      assert PercentEncode(bytes) + rest == head + tail;
      ReadEncodedBytes(bytes[1..], rest);
      ReadByteThen(b, tail, bytes[1..]);
      assert [b] + bytes[1..] == bytes;
    }
  }

  lemma PercentEncodeCons(bytes: seq<int>)
    requires AllBytes(bytes) && bytes != []
    ensures AllBytes(bytes[1..]) && 0 <= bytes[0] < 256
    ensures PercentEncode(bytes) == ['%', HexDigit(bytes[0] / 16), HexDigit(bytes[0] % 16)] + PercentEncode(bytes[1..])
  {
  }

  /** One `%XY` in front of encoded bytes reads as the byte `XY` in front of them. */
  lemma ReadByteThen(b: int, tail: string, more: seq<int>)
    requires 0 <= b < 256
    requires ReadBytes(tail, |more|) == Some(more)
    ensures ReadBytes(['%', HexDigit(b / 16), HexDigit(b % 16)] + tail, |more| + 1) == Some([b] + more)
  {
    var t := ['%', HexDigit(b / 16), HexDigit(b % 16)] + tail;
    assert t[0] == '%' && t[1] == HexDigit(b / 16) && t[2] == HexDigit(b % 16) && t[3..] == tail;
    HexValueOfDigit(b / 16);
    HexValueOfDigit(b % 16);
    assert 16 * (b / 16) + b % 16 == b;
  }

  lemma DivMod64(x: int)
    requires x >= 0
    ensures x == (x / 64) * 64 + x % 64
    ensures (x / 64) / 64 == x / 4096
    ensures ((x / 64) / 64) / 64 == x / 262144
  {
  }

  /** The bytes of a code point assemble back into it, led by a byte announcing their number,
      followed by continuation bytes. */
  lemma Utf8Assembles(c: char)
    ensures SequenceLength(Utf8(c)[0]) == Some(|Utf8(c)|)
    ensures forall i :: 1 <= i < |Utf8(c)| ==> Continuation(Utf8(c)[i])
    ensures Assemble(Utf8(c)) == c as int
  {
    var cp := c as int;
    DivMod64(cp);
    DivMod64(cp / 64);
    DivMod64(cp / 4096);
  }

  /** A well-formed sequence of percent-encoded bytes reads back as the character it spells. */
  lemma DecodeEncodedSequence(bytes: seq<int>, rest: string)
    requires AllBytes(bytes) && 1 <= |bytes| <= 4
    requires SequenceLength(bytes[0]) == Some(|bytes|)
    requires forall i :: 1 <= i < |bytes| ==> Continuation(bytes[i])
    requires IsScalar(Assemble(bytes))
    ensures DecodeSequence(PercentEncode(bytes) + rest) == Some((Assemble(bytes) as char, 3 * |bytes|))
  {
    var t := PercentEncode(bytes) + rest;
    ReadEncodedBytes(bytes, rest);
    ReadLead(bytes, rest);
    assert ReadBytes(t, 1) == Some([bytes[0]]);
    assert ReadBytes(t, |bytes|) == Some(bytes);
  }

  /** The first byte reads back on its own. */
  lemma ReadLead(bytes: seq<int>, rest: string)
    requires AllBytes(bytes) && bytes != []
    ensures ReadBytes(PercentEncode(bytes) + rest, 1) == Some([bytes[0]])
  {
    assert PercentEncode(bytes) + rest == PercentEncode([bytes[0]]) + (PercentEncode(bytes[1..]) + rest);
    ReadEncodedBytes([bytes[0]], PercentEncode(bytes[1..]) + rest);
  }

  /** One encoded character decodes back to itself. */
  lemma DecodeEncodedChar(c: char, rest: string)
    ensures Decode(EncodeChar(c) + rest) ==
      match Decode(rest) case Some(r) => Some([c] + r) case None => None
  {
    var t := EncodeChar(c) + rest;
    if Unreserved(c) {
      assert t[0] == c && t[1..] == rest;
    } else {
      var bytes := Utf8(c);
      Utf8Assembles(c);
      DecodeEncodedSequence(bytes, rest);
      assert t[0] == '%';
      assert t[3 * |bytes|..] == rest;
    }
  }

  /** Decoding undoes `encodeURIComponent`. */
  lemma {:induction false} DecodeEncode(s: string)
    ensures Decode(EncodeURIComponent(s)) == Some(s)
  {
    if s != [] {
      var tail := EncodeURIComponent(s[1..]);
      assert EncodeURIComponent(s) == EncodeChar(s[0]) + tail;
      assert [s[0]] + s[1..] == s;
      DecodeEncode(s[1..]);
      DecodeEncodedCharThen(s[0], tail, s[1..]);
    }
  }

  lemma DecodeEncodedCharThen(c: char, tail: string, rest: string)
    requires Decode(tail) == Some(rest)
    ensures Decode(EncodeChar(c) + tail) == Some([c] + rest)
  {
    DecodeEncodedChar(c, tail);
  }

  /** So different strings have different encodings. */
  lemma EncodeInjective(s1: string, s2: string)
    requires EncodeURIComponent(s1) == EncodeURIComponent(s2)
    ensures s1 == s2
  {
    DecodeEncode(s1);
    DecodeEncode(s2);
  }
}
