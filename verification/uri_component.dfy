/** `encodeURIComponent` and `decodeURIComponent`: every character outside the
    unreserved set is written as the `%XX` escapes of its UTF-8 bytes, and
    decoding reads such escapes back, failing (`URIError`) on a malformed one. */
module UriComponent {
  import opened Wrappers

  /** The characters `encodeURIComponent` leaves as they are. */
  predicate Unreserved(c: char) {
    ('A' <= c <= 'Z') || ('a' <= c <= 'z') || ('0' <= c <= '9') ||
    c == '-' || c == '_' || c == '.' || c == '!' || c == '~' || c == '*' || c == '\'' || c == '(' || c == ')'
  }

  /** An upper-case hexadecimal digit. */
  function Hex(n: nat): (r: char)
    requires n < 16
    ensures HexValue(r) == Some(n)
  {
    if n < 10 then (48 + n) as char else (55 + n) as char
  }

  /** The value of a hexadecimal digit of either case. */
  function HexValue(c: char): Option<nat> {
    if '0' <= c <= '9' then Some(c as int - 48)
    else if 'A' <= c <= 'F' then Some(c as int - 55)
    else if 'a' <= c <= 'f' then Some(c as int - 87)
    else None
  }

  /** The escape of one byte. */
  function Percent(b: nat): (r: string)
    requires b < 256
    ensures |r| == 3
  {
    ['%', Hex(b / 16), Hex(b % 16)]
  }

  /** The escapes of a byte sequence, one after another. */
  function Percents(bytes: seq<nat>): (r: string)
    requires forall k :: 0 <= k < |bytes| ==> bytes[k] < 256
    ensures |r| == 3 * |bytes|
  {
    if |bytes| == 0 then "" else Percent(bytes[0]) + Percents(bytes[1..])
  }

  /** The UTF-8 encoding of a code point. */
  function Utf8(c: char): (r: seq<nat>)
    ensures 1 <= |r| <= 4 && forall k :: 0 <= k < |r| ==> r[k] < 256
  {
    var cp := c as int;
    if cp < 0x80 then [cp]
    else if cp < 0x800 then [0xC0 + cp / 64, 0x80 + cp % 64]
    else if cp < 0x10000 then [0xE0 + cp / 4096, 0x80 + (cp / 64) % 64, 0x80 + cp % 64]
    else [0xF0 + cp / 262144, 0x80 + (cp / 4096) % 64, 0x80 + (cp / 64) % 64, 0x80 + cp % 64]
  }

  function EncodeChar(c: char): (r: string)
    ensures |r| > 0
  {
    if Unreserved(c) then [c] else Percents(Utf8(c))
  }

  /** `encodeURIComponent` */
  function Encode(s: string): (r: string)
    ensures forall k :: 0 <= k < |r| ==> Unreserved(r[k]) || r[k] == '%' || HexValue(r[k]).Some?
  {
    if |s| == 0 then "" else EncodeCharShape(s[0]); EncodeChar(s[0]) + Encode(s[1..])
  }

  lemma EncodeCharShape(c: char)
    ensures forall k :: 0 <= k < |EncodeChar(c)| ==> Unreserved(EncodeChar(c)[k]) || EncodeChar(c)[k] == '%' || HexValue(EncodeChar(c)[k]).Some?
  {
    if !Unreserved(c) {
      PercentsShape(Utf8(c));
    }
  }

  lemma {:induction false} PercentsShape(bytes: seq<nat>)
    requires forall k :: 0 <= k < |bytes| ==> bytes[k] < 256
    ensures forall k :: 0 <= k < |Percents(bytes)| ==> Percents(bytes)[k] == '%' || HexValue(Percents(bytes)[k]).Some?
  {
    if |bytes| > 0 {
      PercentsShape(bytes[1..]);
      var p := Percent(bytes[0]);
      assert p[0] == '%' && HexValue(p[1]).Some? && HexValue(p[2]).Some?;
    }
  }

  /** The byte of the escape `%XX` at index `i`, if there is one. */
  function PercentByte(s: string, i: nat): (r: Option<nat>)
    ensures r.Some? ==> r.value < 256 && i + 3 <= |s|
  {
    if i + 3 <= |s| && s[i] == '%' then
      var high :- HexValue(s[i + 1]);
      var low :- HexValue(s[i + 2]);
      Some(high * 16 + low)
    else None
  }

  /** The six payload bits of a continuation byte at index `i`. */
  function Continuation(s: string, i: nat): (r: Option<nat>)
    ensures r.Some? ==> r.value < 64 && i + 3 <= |s|
  {
    var b :- PercentByte(s, i);
    if 0x80 <= b < 0xC0 then Some(b - 0x80) else None
  }

  /** A code point a UTF-8 sequence of `n + 1` bytes may carry: not overlong,
      not a surrogate, not beyond U+10FFFF. */
  predicate ValidCodePoint(cp: int, n: nat) {
    (n == 0 || cp >= (if n == 1 then 0x80 else if n == 2 then 0x800 else 0x10000)) &&
    0 <= cp < 0x11_0000 && !(0xD800 <= cp < 0xE000)
  }

  /** The character written by the escapes at the start of `s`, and how many
      characters of `s` they take. */
  function DecodeEscape(s: string): (r: Option<(char, nat)>)
    ensures r.Some? ==> 3 <= r.value.1 <= |s|
  {
    var b0 :- PercentByte(s, 0);
    if b0 < 0x80 then Some((b0 as char, 3))
    else if 0xC0 <= b0 < 0xE0 then
      var b1 :- Continuation(s, 3);
      var cp := (b0 - 0xC0) * 64 + b1;
      if ValidCodePoint(cp, 1) then Some((cp as char, 6)) else None
    else if 0xE0 <= b0 < 0xF0 then
      var b1 :- Continuation(s, 3);
      var b2 :- Continuation(s, 6);
      var cp := ((b0 - 0xE0) * 64 + b1) * 64 + b2;
      if ValidCodePoint(cp, 2) then Some((cp as char, 9)) else None
    else if 0xF0 <= b0 < 0xF8 then
      var b1 :- Continuation(s, 3);
      var b2 :- Continuation(s, 6);
      var b3 :- Continuation(s, 9);
      var cp := (((b0 - 0xF0) * 64 + b1) * 64 + b2) * 64 + b3;
      if ValidCodePoint(cp, 3) then Some((cp as char, 12)) else None
    else None
  }

  /** `decodeURIComponent`; `None` where it throws `URIError`. */
  function Decode(s: string): (r: Option<string>)
    decreases |s|
  {
    if |s| == 0 then Some("")
    else if s[0] != '%' then
      var rest :- Decode(s[1..]);
      Some([s[0]] + rest)
    else
      var (c, used) :- DecodeEscape(s);
      var rest :- Decode(s[used..]);
      Some([c] + rest)
  }

  // ---------------------------------------------------------------------------
  // Decoding undoes encoding

  lemma PercentAt(prefix: string, b: nat, rest: string)
    requires b < 256
    ensures PercentByte(prefix + Percent(b) + rest, |prefix|) == Some(b)
  {
    var s := prefix + Percent(b) + rest;
    assert s[|prefix|] == '%' && s[|prefix| + 1] == Hex(b / 16) && s[|prefix| + 2] == Hex(b % 16);
  }

  lemma ContinuationAt(prefix: string, b: nat, rest: string)
    requires 0x80 <= b < 0xC0
    ensures Continuation(prefix + Percent(b) + rest, |prefix|) == Some(b - 0x80)
  {
    PercentAt(prefix, b, rest);
  }

  /** The escapes of a character's UTF-8 bytes decode to that character. */
  lemma DecodeEscapeOf(c: char, rest: string)
    ensures DecodeEscape(Percents(Utf8(c)) + rest) == Some((c, 3 * |Utf8(c)|))
  {
    var cp := c as int;
    if cp < 0x80 {
      DecodeOneByte(c, rest);
    } else if cp < 0x800 {
      DecodeTwoBytes(c, rest);
    } else if cp < 0x10000 {
      DecodeThreeBytes(c, rest);
    } else {
      DecodeFourBytes(c, rest);
    }
  }

  lemma PercentsOfTwo(a: nat, b: nat)
    requires a < 256 && b < 256
    ensures Percents([a, b]) == Percent(a) + Percent(b)
  {
    assert [a, b][1..] == [b] && [b][1..] == [];
    assert Percents([b]) == Percent(b) + Percents([]);
  }

  lemma PercentsOfThree(a: nat, b: nat, c: nat)
    requires a < 256 && b < 256 && c < 256
    ensures Percents([a, b, c]) == Percent(a) + Percent(b) + Percent(c)
  {
    assert [a, b, c][1..] == [b, c];
    PercentsOfTwo(b, c);
  }

  lemma PercentsOfFour(a: nat, b: nat, c: nat, d: nat)
    requires a < 256 && b < 256 && c < 256 && d < 256
    ensures Percents([a, b, c, d]) == Percent(a) + Percent(b) + Percent(c) + Percent(d)
  {
    assert [a, b, c, d][1..] == [b, c, d];
    PercentsOfThree(b, c, d);
  }

  lemma DecodeOneByte(c: char, rest: string)
    requires c as int < 0x80
    ensures DecodeEscape(Percents(Utf8(c)) + rest) == Some((c, 3))
  {
    var bytes := Utf8(c);
    assert bytes[1..] == [];
    assert Percents(bytes) + rest == "" + Percent(bytes[0]) + rest;
    PercentAt("", bytes[0], rest);
  }

  lemma DecodeTwoBytes(c: char, rest: string)
    requires 0x80 <= c as int < 0x800
    ensures DecodeEscape(Percents(Utf8(c)) + rest) == Some((c, 6))
  {
    var b0, b1 := TwoBytesOf(c);
    PercentsOfTwo(b0, b1);
    DecodeTwoEscapes(Percents(Utf8(c)) + rest, b0, b1, rest, c);
  }

  /** The two-byte branch of `DecodeEscape`, given the bytes it reads. */
  lemma DecodeEscapeTwo(s: string, b0: nat, x1: nat, c: char)
    requires PercentByte(s, 0) == Some(b0) && 0xC0 <= b0 < 0xE0
    requires Continuation(s, 3) == Some(x1)
    requires (b0 - 0xC0) * 64 + x1 == c as int && c as int >= 0x80
    ensures DecodeEscape(s) == Some((c, 6))
  {
  }

  /** Two escapes of a lead byte and a continuation byte decode to the
      character they carry. */
  lemma DecodeTwoEscapes(s: string, b0: nat, b1: nat, rest: string, c: char)
    requires 0xC0 <= b0 < 0xE0 && 0x80 <= b1 < 0xC0
    requires s == Percent(b0) + Percent(b1) + rest
    requires (b0 - 0xC0) * 64 + (b1 - 0x80) == c as int && c as int >= 0x80
    ensures DecodeEscape(s) == Some((c, 6))
  {
    var p0, p1 := Percent(b0), Percent(b1);
    assert s == "" + p0 + (p1 + rest) && s == p0 + Percent(b1) + rest;
    PercentAt("", b0, p1 + rest);
    ContinuationAt(p0, b1, rest);
    DecodeEscapeTwo(s, b0, b1 - 0x80, c);
  }

  /** The UTF-8 bytes of a two-byte character and the code point they carry. */
  lemma TwoBytesOf(c: char) returns (b0: nat, b1: nat)
    requires 0x80 <= c as int < 0x800
    ensures Utf8(c) == [b0, b1]
    ensures 0xC0 <= b0 < 0xE0 && 0x80 <= b1 < 0xC0
    ensures (b0 - 0xC0) * 64 + (b1 - 0x80) == c as int
  {
    var cp := c as int;
    b0, b1 := 0xC0 + cp / 64, 0x80 + cp % 64;
    assert cp == (cp / 64) * 64 + cp % 64;
  }

  /** The three-byte branch of `DecodeEscape`, given the bytes it reads. */
  lemma DecodeEscapeThree(s: string, b0: nat, x1: nat, x2: nat, c: char)
    requires PercentByte(s, 0) == Some(b0) && 0xE0 <= b0 < 0xF0
    requires Continuation(s, 3) == Some(x1) && Continuation(s, 6) == Some(x2)
    requires ((b0 - 0xE0) * 64 + x1) * 64 + x2 == c as int && c as int >= 0x800
    ensures DecodeEscape(s) == Some((c, 9))
  {
  }

  /** The four-byte branch of `DecodeEscape`, given the bytes it reads. */
  lemma DecodeEscapeFour(s: string, b0: nat, x1: nat, x2: nat, x3: nat, c: char)
    requires PercentByte(s, 0) == Some(b0) && 0xF0 <= b0 < 0xF8
    requires Continuation(s, 3) == Some(x1) && Continuation(s, 6) == Some(x2) && Continuation(s, 9) == Some(x3)
    requires (((b0 - 0xF0) * 64 + x1) * 64 + x2) * 64 + x3 == c as int && c as int >= 0x10000
    ensures DecodeEscape(s) == Some((c, 12))
  {
  }

  lemma DecodeThreeBytes(c: char, rest: string)
    requires 0x800 <= c as int < 0x10000
    ensures DecodeEscape(Percents(Utf8(c)) + rest) == Some((c, 9))
  {
    var b0, b1, b2 := ThreeBytesOf(c);
    PercentsOfThree(b0, b1, b2);
    DecodeThreeEscapes(Percents(Utf8(c)) + rest, b0, b1, b2, rest, c);
  }

  /** Three escapes of a lead byte and two continuation bytes decode to the
      character they carry. */
  lemma DecodeThreeEscapes(s: string, b0: nat, b1: nat, b2: nat, rest: string, c: char)
    requires 0xE0 <= b0 < 0xF0 && 0x80 <= b1 < 0xC0 && 0x80 <= b2 < 0xC0
    requires s == Percent(b0) + Percent(b1) + Percent(b2) + rest
    requires ((b0 - 0xE0) * 64 + (b1 - 0x80)) * 64 + (b2 - 0x80) == c as int && c as int >= 0x800
    ensures DecodeEscape(s) == Some((c, 9))
  {
    var p0, p1, p2 := Percent(b0), Percent(b1), Percent(b2);
    RegroupThree(s, p0, p1, p2, rest);
    PercentAt("", b0, p1 + p2 + rest);
    ContinuationAt(p0, b1, p2 + rest);
    ContinuationAt(p0 + p1, b2, rest);
    DecodeEscapeThree(s, b0, b1 - 0x80, b2 - 0x80, c);
  }

  lemma DecodeFourBytes(c: char, rest: string)
    requires 0x10000 <= c as int
    ensures DecodeEscape(Percents(Utf8(c)) + rest) == Some((c, 12))
  {
    var b0, b1, b2, b3 := FourBytesOf(c);
    PercentsOfFour(b0, b1, b2, b3);
    DecodeFourEscapes(Percents(Utf8(c)) + rest, b0, b1, b2, b3, rest, c);
  }

  /** Four escapes of a lead byte and three continuation bytes decode to the
      character they carry. */
  lemma DecodeFourEscapes(s: string, b0: nat, b1: nat, b2: nat, b3: nat, rest: string, c: char)
    requires 0xF0 <= b0 < 0xF8 && 0x80 <= b1 < 0xC0 && 0x80 <= b2 < 0xC0 && 0x80 <= b3 < 0xC0
    requires s == Percent(b0) + Percent(b1) + Percent(b2) + Percent(b3) + rest
    requires (((b0 - 0xF0) * 64 + (b1 - 0x80)) * 64 + (b2 - 0x80)) * 64 + (b3 - 0x80) == c as int && c as int >= 0x10000
    ensures DecodeEscape(s) == Some((c, 12))
  {
    var p0, p1, p2, p3 := Percent(b0), Percent(b1), Percent(b2), Percent(b3);
    RegroupFour(s, p0, p1, p2, p3, rest);
    PercentAt("", b0, p1 + p2 + p3 + rest);
    ContinuationAt(p0, b1, p2 + p3 + rest);
    ContinuationAt(p0 + p1, b2, p3 + rest);
    ContinuationAt(p0 + p1 + p2, b3, rest);
    DecodeEscapeFour(s, b0, b1 - 0x80, b2 - 0x80, b3 - 0x80, c);
  }

  /** The UTF-8 bytes of a three-byte character and the code point they carry. */
  lemma ThreeBytesOf(c: char) returns (b0: nat, b1: nat, b2: nat)
    requires 0x800 <= c as int < 0x10000
    ensures Utf8(c) == [b0, b1, b2]
    ensures 0xE0 <= b0 < 0xF0 && 0x80 <= b1 < 0xC0 && 0x80 <= b2 < 0xC0
    ensures ((b0 - 0xE0) * 64 + (b1 - 0x80)) * 64 + (b2 - 0x80) == c as int
  {
    var cp := c as int;
    b0, b1, b2 := 0xE0 + cp / 4096, 0x80 + (cp / 64) % 64, 0x80 + cp % 64;
    ThreeByteValue(cp);
  }

  /** The UTF-8 bytes of a four-byte character and the code point they carry. */
  lemma FourBytesOf(c: char) returns (b0: nat, b1: nat, b2: nat, b3: nat)
    requires 0x10000 <= c as int
    ensures Utf8(c) == [b0, b1, b2, b3]
    ensures 0xF0 <= b0 < 0xF8 && 0x80 <= b1 < 0xC0 && 0x80 <= b2 < 0xC0 && 0x80 <= b3 < 0xC0
    ensures (((b0 - 0xF0) * 64 + (b1 - 0x80)) * 64 + (b2 - 0x80)) * 64 + (b3 - 0x80) == c as int
  {
    var cp := c as int;
    b0, b1, b2, b3 := 0xF0 + cp / 262144, 0x80 + (cp / 4096) % 64, 0x80 + (cp / 64) % 64, 0x80 + cp % 64;
    FourByteValue(cp);
  }

  /** The groupings of three escapes and a rest that the decoding steps read. */
  lemma RegroupThree(s: string, p0: string, p1: string, p2: string, rest: string)
    requires s == p0 + p1 + p2 + rest
    ensures s == "" + p0 + (p1 + p2 + rest) && s == p0 + p1 + (p2 + rest)
  {
  }

  /** The groupings of four escapes and a rest that the decoding steps read. */
  lemma RegroupFour(s: string, p0: string, p1: string, p2: string, p3: string, rest: string)
    requires s == p0 + p1 + p2 + p3 + rest
    ensures s == "" + p0 + (p1 + p2 + p3 + rest) && s == p0 + p1 + (p2 + p3 + rest) && s == p0 + p1 + p2 + (p3 + rest)
  {
  }

  lemma ThreeByteValue(cp: nat)
    requires 0x800 <= cp < 0x10000
    ensures 0xE0 <= 0xE0 + cp / 4096 < 0xF0
    ensures ((cp / 4096) * 64 + (cp / 64) % 64) * 64 + cp % 64 == cp
  {
    var q := cp / 64;
    assert cp == q * 64 + cp % 64;
    assert q == (q / 64) * 64 + q % 64;
    assert q / 64 == cp / 4096;
  }

  lemma FourByteValue(cp: nat)
    requires 0x10000 <= cp < 0x11_0000
    ensures 0xF0 <= 0xF0 + cp / 262144 < 0xF8
    ensures (((cp / 262144) * 64 + (cp / 4096) % 64) * 64 + (cp / 64) % 64) * 64 + cp % 64 == cp
  {
    var q := cp / 64;
    var q2 := q / 64;
    assert cp == q * 64 + cp % 64;
    assert q == q2 * 64 + q % 64;
    assert q2 == (q2 / 64) * 64 + q2 % 64;
    assert q2 == cp / 4096;
    assert q2 / 64 == cp / 262144;
  }

  lemma DecodeEncodedChar(c: char, rest: string)
    ensures Decode(EncodeChar(c) + rest) == (if Decode(rest).Some? then Some([c] + Decode(rest).value) else None)
  {
    var s := EncodeChar(c) + rest;
    if Unreserved(c) {
      assert s[0] == c && s[1..] == rest;
    } else {
      DecodeEscapeOf(c, rest);
      var p := Percents(Utf8(c));
      assert s[0] == p[0] == Percent(Utf8(c)[0])[0] == '%';
      assert s[3 * |Utf8(c)|..] == rest;
    }
  }

  /** Decoding an encoded string gives it back. */
  lemma {:induction false} DecodeEncode(s: string)
    ensures Decode(Encode(s)) == Some(s)
    decreases |s|
  {
    if |s| > 0 {
      DecodeEncode(s[1..]);
      DecodeEncodedChar(s[0], Encode(s[1..]));
      assert [s[0]] + s[1..] == s;
    }
  }

  /** A lone `%` is a malformed escape. */
  lemma LonePercentFails()
    ensures Decode("%").None?
  {
  }
}
