/** The part of ECMAScript's `decodeURI` (ECMA-262, 2022 edition, section
    19.2.6.2) that property names need, and `encodeURI` (section 19.2.6.4)
    restricted to ASCII as its inverse. */
module Uri {

  /** The characters `decodeURI` leaves escaped: uriReserved plus '#'. */
  const DecodeReserved: set<char> := {';', '/', '?', ':', '@', '&', '=', '+', '$', ',', '#'}

  /** Characters `encodeURI` leaves as they are: uriReserved, uriUnescaped and '#'. */
  predicate Unescaped(c: char)
  {
    ('a' <= c <= 'z') || ('A' <= c <= 'Z') || ('0' <= c <= '9')
    || c in {'-', '_', '.', '!', '~', '*', '\'', '(', ')'}
    || c in DecodeReserved
  }

  predicate IsHex(c: char)
  {
    ('0' <= c <= '9') || ('A' <= c <= 'F') || ('a' <= c <= 'f')
  }

  function HexValue(c: char): (v: nat)
    requires IsHex(c)
    ensures v < 16
  {
    if '0' <= c <= '9' then c as int - '0' as int
    else if 'A' <= c <= 'F' then c as int - 'A' as int + 10
    else c as int - 'a' as int + 10
  }

  /** The upper-case hexadecimal digit of `v`. */
  function HexDigit(v: nat): (c: char)
    requires v < 16
    ensures IsHex(c) && HexValue(c) == v
  {
    if v < 10 then ('0' as int + v) as char else ('A' as int + v - 10) as char
  }

  /** `decodeURI(s)` for escapes of single bytes below 0x80: each such `%XY`
      becomes its character unless that character is in DecodeReserved, in
      which case the three characters stay as written. Other text, including
      escapes of bytes from 0x80 on and a '%' not followed by two hexadecimal
      digits, is kept verbatim. */
  function DecodeUri(s: string): (r: string)
    ensures |r| <= |s|
    ensures r == [] <==> s == []
  {
    if s == [] then []
    else if s[0] == '%' && |s| >= 3 && IsHex(s[1]) && IsHex(s[2]) then
      var b := HexValue(s[1]) * 16 + HexValue(s[2]);
      if b < 0x80 && (b as char) !in DecodeReserved then [b as char] + DecodeUri(s[3..])
      else s[..3] + DecodeUri(s[3..])
    else [s[0]] + DecodeUri(s[1..])
  }

  /** How `encodeURI` writes one ASCII character: as it is when Unescaped,
      otherwise as `%XY` with upper-case hexadecimal digits. */
  function EncodeChar(c: char): (e: string)
    requires c as int < 0x80
    ensures Unescaped(c) ==> e == [c]
    ensures !Unescaped(c) ==> |e| == 3 && e[0] == '%' && IsHex(e[1]) && IsHex(e[2]) && HexValue(e[1]) * 16 + HexValue(e[2]) == c as int
  {
    if Unescaped(c) then [c] else ['%', HexDigit(c as int / 16), HexDigit(c as int % 16)]
  }

  /** `encodeURI(s)` for a string of ASCII characters. */
  function EncodeUri(s: string): string
    requires forall i :: 0 <= i < |s| ==> s[i] as int < 0x80
  {
    if s == [] then [] else EncodeChar(s[0]) + EncodeUri(s[1..])
  }

  /** Without a '%', decoding changes nothing. */
  lemma {:induction false} DecodeWithoutPercent(s: string)
    requires '%' !in s
    ensures DecodeUri(s) == s
  {
    if s != [] {
      DecodeWithoutPercent(s[1..]);
      assert [s[0]] + s[1..] == s;
    }
  }

  /** An encoded character decodes back to that character, whatever follows. */
  lemma DecodeEncodedChar(c: char, rest: string)
    requires c as int < 0x80
    ensures DecodeUri(EncodeChar(c) + rest) == [c] + DecodeUri(rest)
  {
    var e := EncodeChar(c) + rest;
    if Unescaped(c) {
      assert e[0] == c && e[1..] == rest;
    } else {
      assert e[3..] == rest;
      assert HexValue(e[1]) * 16 + HexValue(e[2]) == c as int;
    }
  }

  /** Decoding undoes encoding on ASCII text. */
  lemma {:induction false} DecodeEncode(s: string)
    requires forall i :: 0 <= i < |s| ==> s[i] as int < 0x80
    ensures DecodeUri(EncodeUri(s)) == s
  {
    if s != [] {
      DecodeEncode(s[1..]);
      DecodeEncodedChar(s[0], EncodeUri(s[1..]));
      assert [s[0]] + s[1..] == s;
    }
  }
}
